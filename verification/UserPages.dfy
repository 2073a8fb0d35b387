/** Pages of user processes: no two directory entries of the user half share a page table, so mapping and unmapping a
    user page changes the translation of that page in that process, and no other. */
module UserPages {
  import opened Words
  import opened Paging
  import opened KernelMemory
  import opened HeapInvariant
  import opened HeapSteps
  import opened HeapRuns

  /** No two user entries name the same page table, and they allow everything. */
  ghost predicate PrivateTables(s: State) {
    && (forall d: Word, i: nat, e: Word, k: nat :: UserEntry(s, d, i) && UserEntry(s, e, k) && (d != e || i != k) ==>
          Frame(Pde(s.mem, d, i)) != Frame(Pde(s.mem, e, k)))
    && (forall d: Word, i: nat :: UserEntry(s, d, i) ==> Open(Pde(s.mem, d, i)))
  }

  // ---------------------------------------------------------------- every step keeps tables private

  /** Every user entry of `s'` was there, or is entry `i` of directory `d` and holds a frame that was free. */
  ghost predicate OneNewTable(s: State, s': State, d: Word, i: nat) {
    forall e: Word, k: nat :: UserEntry(s', e, k) ==>
      || (UserEntry(s, e, k) && Pde(s'.mem, e, k) == Pde(s.mem, e, k))
      || (e == d && k == i && !KernelFrame(s, Frame(Pde(s'.mem, e, k))) && Frame(Pde(s'.mem, e, k)) >= 0x200000
          && Open(Pde(s'.mem, e, k)))
  }

  lemma StaysPrivate(s: State, s': State, d: Word, i: nat)
    requires TablesOk(s) && PrivateTables(s) && OneNewTable(s, s', d, i)
    ensures PrivateTables(s')
  {
    hide Frame, Pde, KernelFrame;
    forall e: Word, k: nat | UserEntry(s, e, k)
      ensures Frame(Pde(s.mem, e, k)) == KERNEL_TABLES || KernelFrame(s, Frame(Pde(s.mem, e, k)))
    {
    }
  }

  /** Directories are apart from the entries of heap pages. */
  lemma EntriesAreNotInDirs(s: State, s': State, j: nat, n: nat)
    requires LayoutOk(s) && DirsOk(s) && j + n <= |s.vbits|
    requires forall a :: !(EntryAt(j) <= a < EntryAt(j + n)) ==> s'.mem(a) == s.mem(a)
    ensures forall d: Word, i: nat :: d in s.dirs && i < 1024 ==> Pde(s'.mem, d, i) == Pde(s.mem, d, i)
  {
    forall d: Word, i: nat | d in s.dirs && i < 1024 ensures Pde(s'.mem, d, i) == Pde(s.mem, d, i) {
      assert d == BOOT_DIR || d >= 0x200000;
      assert d + 4 * i < EntryAt(0) || d + 4 * i >= 0x200000;
      assert EntryAt(j) >= EntryAt(0) && EntryAt(j + n) <= 0x200000;
    }
  }

  lemma SameEntries(s: State, s': State, e: Word, k: nat)
    requires s'.dirs == s.dirs
    requires forall d: Word, i: nat :: d in s.dirs && i < 1024 ==> Pde(s'.mem, d, i) == Pde(s.mem, d, i)
    ensures OneNewTable(s, s', e, k)
  {
    hide Frame, Pde, KernelFrame;
  }

  lemma MallocEntries(s: State, n: nat)
    requires Inv(s) && MallocPages(s, n).Ok?
    ensures OneNewTable(s, MallocPages(s, n).value.0, 0, 0)
    ensures MallocPages(s, n).value.0.dirs == s.dirs
    ensures forall d: Word, i: nat :: d in s.dirs && i < 1024 ==>
              Pde(MallocPages(s, n).value.0.mem, d, i) == Pde(s.mem, d, i)
  {
    hide MallocPages, TablesOk, HeapOk, FramesTaken, OneNewTable, Pde;
    MallocPagesKeeps(s, n);
    var (s', j) := MallocPages(s, n).value;
    EntriesAreNotInDirs(s, s', j, n);
    SameEntries(s, s', 0, 0);
  }

  lemma FreeEntries(s: State, j: nat, n: nat)
    requires Inv(s) && Freeable(s, j, n)
    ensures FreePages(s, j, n).Ok? && OneNewTable(s, FreePages(s, j, n).value, 0, 0)
  {
    hide FreePages, TablesOk, HeapOk, FramesReleased, OneNewTable, Pde, FrameOf;
    FreePagesKeeps(s, j, n);
    EntriesAreNotInDirs(s, FreePages(s, j, n).value, j, n);
    SameEntries(s, FreePages(s, j, n).value, 0, 0);
  }

  lemma WriteEntries(s: State, a: int, w: Word, s': State, e: Word, k: nat)
    requires Inv(s) && a >= 0x200000 && a - a % 4096 !in s.dirs && s'.dirs == s.dirs && s'.mem == Store(s.mem, a, w)
    ensures OneNewTable(s, s', e, k)
  {
    hide KernelFrame, Frame, KernelHalf, TablesOk, HeapOk, OneNewTable;
    forall d: Word, i: nat | d in s.dirs && i < 1024 ensures Pde(s'.mem, d, i) == Pde(s.mem, d, i) {
      OutsideWord(s, a, d, i);
    }
    SameEntries(s, s', e, k);
  }

  lemma NewDirUserEntries(s: State)
    requires Inv(s) && CreatePageDir(s).Ok?
    ensures OneNewTable(s, CreatePageDir(s).value.0, 0, 0)
  {
    hide CreatePageDir, MallocPages, NewDirectory, Frame, KernelFrame;
    CreatePageDirIs(s);
    MallocEntries(s, 1);
    var (s1, j) := MallocPages(s, 1).value;
    var d := FrameOf(s1, j);
    var s' := CreatePageDir(s).value.0;
    hide TablesOk, HeapOk, FrameOf;
    NewDirEntries(s1.mem, s1.cr3, d);
    OtherDirsStay(s1, d, s'.mem);
    assert !Present(0);
    hide Pde, KernelHalf, Present;
  }

  // ---------------------------------------------------------------- mapping a user page

  /** What get_a_page does to memory, in its two cases. */
  lemma MapUserIs(s: State, v: Word)
    requires Inv(s) && s.cr3 != BOOT_DIR && v < KERNEL_BASE && MapUserPage(s, v).Ok?
    ensures AllocUserFrame(s).Ok? && 0 <= AllocUserFrame(s).value.1 < 0x1_0000_0000
    ensures AllocUserFrame(s).value.1 % 4096 == 0
    ensures var f: Word, s' := AllocUserFrame(s).value.1, MapUserPage(s, v).value;
            && s'.dirs == s.dirs && s'.cr3 == s.cr3
            && (TablePresent(s.mem, s.cr3, v) ==> s'.mem == SetPte(s.mem, s.cr3, v, f))
            && (!TablePresent(s.mem, s.cr3, v) ==>
                  exists t: Word :: FreshTable(s, t) && s'.mem == SetPteInNewTable(s.mem, s.cr3, v, f, t))
  {
    hide TablesOk, HeapOk, DirsOk, TablePresent, SetPte, SetPteInNewTable, KernelFrame;
    FreshUserFrame(s);
    var s1 := AllocUserFrame(s).value.0;
    FreshFrame(s1);
    hide AllocKernelFrame, AllocUserFrame;
    if !TablePresent(s.mem, s.cr3, v) {
      var t: Word := AllocKernelFrame(s1).value.1;
      assert KernelFrame(s1, t) == KernelFrame(s, t) by {
        SameMarks(s, s1, t);
      }
      assert FreshTable(s, t);
    }
  }

  lemma SameMarks(s: State, s1: State, t: int)
    requires s1.kbits == s.kbits && s1.kStart == s.kStart
    ensures KernelFrame(s1, t) == KernelFrame(s, t)
  {
  }

  /** A frame of the kernel pool that is not in use. */
  ghost predicate FreshTable(s: State, t: Word) {
    t % 4096 == 0 && t >= 0x200000 && !KernelFrame(s, t)
  }

  lemma NewTableEntry(s: State, v: Word, f: Word, t: Word, s': State)
    requires Inv(s) && s.cr3 != BOOT_DIR && v < KERNEL_BASE && !TablePresent(s.mem, s.cr3, v) && FreshTable(s, t)
    requires s'.dirs == s.dirs && s'.mem == SetPteInNewTable(s.mem, s.cr3, v, f, t)
    ensures OneNewTable(s, s', s.cr3, PdeIdx(v))
  {
    var i := PdeIdx(v);
    assert i < 768 && t !in s.dirs;
    assert PdeAt(s.cr3, v) == s.cr3 + 4 * i;
    DirsApart(s.cr3, t, v);
    assert Pde(s'.mem, s.cr3, i) == Entry(t);
    assert Frame(Entry(t)) == t;
    NewTableEntries(s, t, i, s'.mem);
    hide Frame, Pde, KernelFrame, SetPteInNewTable, PdeIdx, PteIdx, Present;
  }

  lemma MapUserEntries(s: State, v: Word)
    requires Inv(s) && s.cr3 != BOOT_DIR && v < KERNEL_BASE && MapUserPage(s, v).Ok?
    ensures OneNewTable(s, MapUserPage(s, v).value, s.cr3, PdeIdx(v))
  {
    hide MapUserPage, AllocUserFrame, OneNewTable, FreshTable, DirsOk, TablesOk, HeapOk, PdeIdx, PteIdx, Frame;
    MapUserIs(s, v);
    var f: Word, s' := AllocUserFrame(s).value.1, MapUserPage(s, v).value;
    if TablePresent(s.mem, s.cr3, v) {
      UserTable(s, v);
      hide PteAt;
      WriteEntries(s, PteAt(s.mem, s.cr3, v), Entry(f), s', s.cr3, PdeIdx(v));
    } else {
      var t: Word :| FreshTable(s, t) && s'.mem == SetPteInNewTable(s.mem, s.cr3, v, f, t);
      NewTableEntry(s, v, f, t, s');
    }
  }

  // ---------------------------------------------------------------- unmapping a user page

  lemma UnmapUserIs(s: State, v: Word)
    requires Inv(s) && s.cr3 != BOOT_DIR && v < KERNEL_BASE && FreePage(s, v, true).Ok?
    ensures TablePresent(s.mem, s.cr3, v)
    ensures var s' := FreePage(s, v, true).value;
            s'.dirs == s.dirs && s'.cr3 == s.cr3 && s'.mem == ClearPte(s.mem, s.cr3, v)
  {
    SelfEntry(s.mem, s.cr3);
    RecursiveMapping(s.mem, s.cr3, v);
    hide Frame, Absent, KernelFrame, DirsOk, TablesOk, HeapOk, PdeIdx, PteIdx, PteAddr, TablePresent, PteAt, AddrV2p;
  }

  lemma UnmapUserEntries(s: State, v: Word)
    requires Inv(s) && s.cr3 != BOOT_DIR && v < KERNEL_BASE && FreePage(s, v, true).Ok?
    ensures OneNewTable(s, FreePage(s, v, true).value, 0, 0)
  {
    hide FreePage, OneNewTable, DirsOk, TablesOk, HeapOk, PdeIdx, PteIdx, Frame, Absent, TablePresent;
    UnmapUserIs(s, v);
    UserTable(s, v);
    var a := PteAt(s.mem, s.cr3, v);
    hide PteAt;
    WriteEntries(s, a, Absent(s.mem(a)), FreePage(s, v, true).value, 0, 0);
  }

  // ---------------------------------------------------------------- runs

  lemma StepKeepsPrivate(s: State, e: Event)
    requires Inv(s) && PrivateTables(s) && Legal(s, e) && Step(s, e).Ok?
    ensures PrivateTables(Step(s, e).value)
  {
    hide DirsOk, TablesOk, HeapOk, MallocPages, FreePages, CreatePageDir, MapUserPage, FreePage, Freeable, IsTable,
         PrivateTables, OneNewTable;
    var s' := Step(s, e).value;
    match e
    case Malloc(n) => MallocEntries(s, n); StaysPrivate(s, s', 0, 0);
    case Free(j, n) => FreeEntries(s, j, n); StaysPrivate(s, s', 0, 0);
    case FreeVirtual(j, n) => SameEntries(s, s', 0, 0); StaysPrivate(s, s', 0, 0);
    case NewDir => NewDirUserEntries(s); StaysPrivate(s, s', 0, 0);
    case Activate(d) => SameEntries(s, s', 0, 0); StaysPrivate(s, s', 0, 0);
    case MapUser(v) => MapUserEntries(s, v); StaysPrivate(s, s', s.cr3, PdeIdx(v));
    case UnmapUser(v) => UnmapUserEntries(s, v); StaysPrivate(s, s', 0, 0);
    case Write(a, w) => WriteEntries(s, a, w, s', 0, 0); StaysPrivate(s, s', 0, 0);
  }

  lemma {:induction false} RunKeepsPrivate(s: State, es: seq<Event>)
    requires Inv(s) && PrivateTables(s) && Run(s, es).Some? && Run(s, es).value.Ok?
    ensures Inv(Run(s, es).value.value) && PrivateTables(Run(s, es).value.value)
    decreases |es|
  {
    hide DirsOk, TablesOk, HeapOk, Step, Legal, PrivateTables;
    if es != [] {
      StepKeeps(s, es[0]);
      StepKeepsPrivate(s, es[0]);
      RunKeepsPrivate(Step(s, es[0]).value, es[1..]);
    }
  }

  lemma BootedIsPrivate(s: State)
    requires Booted(s)
    ensures PrivateTables(s)
  {
    assert !Present(0);
    hide Frame, Present, Pde;
    assert forall d: Word, i: nat :: UserEntry(s, d, i) ==> d == BOOT_DIR && i == 0;
  }

  // ---------------------------------------------------------------- what changes

  /** Under different directories, or for different pages, addresses below the self-mapped window are resolved through
      different entries, when one of them is a user address of a process. */
  lemma EntriesDiffer(s: State, v: Word, d: Word, u: Word)
    requires Inv(s) && PrivateTables(s) && s.cr3 != BOOT_DIR && v < KERNEL_BASE && d in s.dirs && u < SELF_MAP
    requires TablePresent(s.mem, s.cr3, v) && TablePresent(s.mem, d, u)
    requires d != s.cr3 || u / 4096 != v / 4096
    ensures PteAt(s.mem, d, u) != PteAt(s.mem, s.cr3, v)
  {
    UserTable(s, v);
    var t, g := Frame(s.mem(PdeAt(s.cr3, v))), Frame(s.mem(PdeAt(d, u)));
    SamePage(u, v);
    if u < KERNEL_BASE {
      assert UserEntry(s, s.cr3, PdeIdx(v)) && UserEntry(s, d, PdeIdx(u));
      assert s.mem(PdeAt(s.cr3, v)) == Pde(s.mem, s.cr3, PdeIdx(v)) && s.mem(PdeAt(d, u)) == Pde(s.mem, d, PdeIdx(u));
      hide PdeIdx, PteIdx, Frame, Pde, Present, KernelFrame, DirsOk, TablesOk, HeapOk;
      assert (d != s.cr3 || PdeIdx(u) != PdeIdx(v)) ==> t != g;
    } else {
      assert KernelHalf(s.mem, d);
      KernelEntry(s.mem, d, u);
      assert KERNEL_TABLES + 4 * ((u - KERNEL_BASE) / 4096) < 0x200000 <= t;
    }
    SameWord(t, PteIdx(v), g, PteIdx(u));
  }

  lemma SamePage(u: Word, v: Word)
    ensures u / 4096 == v / 4096 <==> PdeIdx(u) == PdeIdx(v) && PteIdx(u) == PteIdx(v)
  {
    assert u / 4096 == 1024 * (u / 0x400000) + u / 4096 % 1024;
    assert v / 4096 == 1024 * (v / 0x400000) + v / 4096 % 1024;
  }

  /** The page tables below the self-mapped window are in use, and are no directories. */
  lemma TableInUse(s: State, d: Word, u: Word)
    requires Inv(s) && d in s.dirs && u < SELF_MAP && TablePresent(s.mem, d, u)
    ensures var t := Frame(s.mem(PdeAt(d, u))); (KernelFrame(s, t) || t < 0x200000) && t !in s.dirs
  {
    var i := PdeIdx(u);
    assert s.mem(PdeAt(d, u)) == Pde(s.mem, d, i);
    if i < 768 {
      assert UserEntry(s, d, i);
    } else {
      assert KernelHalf(s.mem, d) && i < 1023;
      KernelTable(i - 768);
    }
    assert BOOT_DIR !in {KERNEL_TABLES} && forall e :: e in s.dirs ==> e == BOOT_DIR || e >= 0x200000;
  }

  lemma TableIsNoDir(s: State, d: Word, u: Word, e: Word, x: Word)
    requires Inv(s) && d in s.dirs && u < SELF_MAP && TablePresent(s.mem, d, u) && e in s.dirs
    ensures PteAt(s.mem, d, u) != PdeAt(e, x)
  {
    TableInUse(s, d, u);
    assert e % 4096 == 0;
    hide KernelFrame, TablesOk, HeapOk, Frame, PdeIdx, PteIdx;
    SameWord(Frame(s.mem(PdeAt(d, u))), PteIdx(u), e, PdeIdx(x));
  }

  /** get_a_page: afterwards the page walks to a user frame that was free, and no other translation below the
      self-mapped window has changed, under any directory. */
  lemma MapUserPageExact(s: State, v: Word, d: Word, u: Word)
    requires Inv(s) && PrivateTables(s) && s.cr3 != BOOT_DIR && v < KERNEL_BASE && MapUserPage(s, v).Ok?
    requires d in s.dirs && u < SELF_MAP
    ensures AllocUserFrame(s).Ok? && 0 <= AllocUserFrame(s).value.1 < 0x1_0000_0000
    ensures Reach(MapUserPage(s, v).value.mem, d, u) ==
            if d == s.cr3 && u / 4096 == v / 4096 then Some(Mapping(AllocUserFrame(s).value.1 + u % 4096, true, true))
            else Reach(s.mem, d, u)
    ensures Walk(MapUserPage(s, v).value.mem, d, u) ==
            if d == s.cr3 && u / 4096 == v / 4096 then Some(AllocUserFrame(s).value.1 + u % 4096)
            else Walk(s.mem, d, u)
  {
    hide MapUserPage, AllocUserFrame, FreshTable, DirsOk, TablesOk, HeapOk, PdeIdx, PteIdx, Reach, Walk, PrivateTables,
         SetPte, SetPteInNewTable, TablePresent;
    MapUserIs(s, v);
    var f: Word := AllocUserFrame(s).value.1;
    ReachIsWalk(s.mem, d, u);
    ReachIsWalk(MapUserPage(s, v).value.mem, d, u);
    if TablePresent(s.mem, s.cr3, v) {
      InPlace(s, v, f, d, u);
    } else {
      var t: Word :| FreshTable(s, t) && MapUserPage(s, v).value.mem == SetPteInNewTable(s.mem, s.cr3, v, f, t);
      InNewTable(s, v, f, t, d, u);
    }
  }

  lemma SameEntry(m: Mem, dir: Word, u: Word, v: Word)
    requires u / 4096 == v / 4096
    ensures TablePresent(m, dir, u) == TablePresent(m, dir, v) && PteAt(m, dir, u) == PteAt(m, dir, v)
    ensures PdeAt(dir, u) == PdeAt(dir, v)
  {
    SamePage(u, v);
    hide PdeIdx, PteIdx, Frame, Present;
  }

  /** The directory entry of a user page lets user mode read and write. */
  lemma OpenTable(s: State, v: Word)
    requires PrivateTables(s) && s.cr3 in s.dirs && v < KERNEL_BASE && TablePresent(s.mem, s.cr3, v)
    ensures Open(s.mem(PdeAt(s.cr3, v)))
  {
    var i := PdeIdx(v);
    assert i < 768 && s.mem(PdeAt(s.cr3, v)) == Pde(s.mem, s.cr3, i);
    assert UserEntry(s, s.cr3, i);
    hide PdeIdx, Open;
  }

  lemma ActiveDir(s: State)
    requires Inv(s)
    ensures s.cr3 in s.dirs
  {
  }

  lemma InPlace(s: State, v: Word, f: Word, d: Word, u: Word)
    requires Inv(s) && PrivateTables(s) && s.cr3 != BOOT_DIR && v < KERNEL_BASE && d in s.dirs && u < SELF_MAP
    requires TablePresent(s.mem, s.cr3, v) && f % 4096 == 0
    ensures Reach(SetPte(s.mem, s.cr3, v, f), d, u) ==
            if d == s.cr3 && u / 4096 == v / 4096 then Some(Mapping(f + u % 4096, true, true)) else Reach(s.mem, d, u)
  {
    hide Reach, Walk, SetPte, Inv, PdeIdx, PteIdx, Frame, PrivateTables, TablePresent, PteAt, PdeAt, UserMode, Writable,
         LayoutOk, DirsOk, TablesOk, HeapOk;
    ActiveDir(s);
    OpenTable(s, v);
    TableIsNoDir(s, s.cr3, v, d, u);
    SetPteTranslations(s.mem, s.cr3, v, f, d, u);
    assert Frame(f) == f;
    if d == s.cr3 && u / 4096 == v / 4096 {
      SameEntry(s.mem, d, u, v);
    } else if TablePresent(s.mem, d, u) {
      EntriesDiffer(s, v, d, u);
    }
  }

  lemma NoTable(m: Mem, dir: Word, u: Word, v: Word)
    requires !TablePresent(m, dir, v) && PdeIdx(u) == PdeIdx(v)
    ensures Reach(m, dir, u) == None
  {
    hide PdeIdx;
  }

  lemma FreshIsNoDir(s: State, t: Word)
    requires DirsOk(s) && FreshTable(s, t)
    ensures t !in s.dirs
  {
  }

  lemma InNewTable(s: State, v: Word, f: Word, t: Word, d: Word, u: Word)
    requires Inv(s) && s.cr3 != BOOT_DIR && v < KERNEL_BASE && d in s.dirs && u < SELF_MAP
    requires !TablePresent(s.mem, s.cr3, v) && f % 4096 == 0 && FreshTable(s, t)
    ensures Reach(SetPteInNewTable(s.mem, s.cr3, v, f, t), d, u) ==
            if d == s.cr3 && u / 4096 == v / 4096 then Some(Mapping(f + u % 4096, true, true)) else Reach(s.mem, d, u)
  {
    hide Inv, FreshTable, PteAt, SetPteInNewTable, PdeIdx, PteIdx, Frame, Reach, Walk, TablePresent, PdeAt, LayoutOk,
         DirsOk, TablesOk, HeapOk;
    NewTableApart(s, v, t, d, u);
    SetPteInNewTableTranslations(s.mem, s.cr3, v, f, t, d, u);
    assert Frame(f) == f;
    SamePage(u, v);
    if PdeIdx(u) == PdeIdx(v) {
      NoTable(s.mem, s.cr3, u, v);
    }
  }

  lemma NewTableApart(s: State, v: Word, t: Word, d: Word, u: Word)
    requires Inv(s) && d in s.dirs && u < SELF_MAP && FreshTable(s, t)
    ensures s.cr3 % 4096 == 0 && d % 4096 == 0 && t % 4096 == 0 && t != s.cr3 && t != d
    ensures TablePresent(s.mem, d, u) ==>
              Frame(s.mem(PdeAt(d, u))) != t && PteAt(s.mem, d, u) != PdeAt(s.cr3, v)
  {
    FreshIsNoDir(s, t);
    assert s.cr3 in s.dirs;
    hide TablesOk, HeapOk, KernelFrame, PteAt, PdeIdx, PteIdx, Frame, TablePresent, PdeAt;
    if TablePresent(s.mem, d, u) {
      TableInUse(s, d, u);
      TableIsNoDir(s, d, u, s.cr3, v);
    }
  }

  /** After page_dir_activate, pages are mapped in the directory that was activated, and no other directory changes. */
  lemma MapsInActive(s: State, c: Word, v: Word, d: Word, u: Word)
    requires Inv(s) && PrivateTables(s) && Legal(s, Activate(c)) && c != BOOT_DIR && v < KERNEL_BASE
    requires d in s.dirs && u < SELF_MAP && Step(s, Activate(c)).Ok?
    ensures var s1 := Step(s, Activate(c)).value;
            LayoutOk(s1) && (MapUserPage(s1, v).Ok? ==>
              Reach(MapUserPage(s1, v).value.mem, d, u) ==
              if d == c && u / 4096 == v / 4096 then Some(Mapping(AllocUserFrame(s).value.1 + u % 4096, true, true))
              else Reach(s.mem, d, u))
  {
    hide MapUserPage, AllocUserFrame, DirsOk, TablesOk, HeapOk, PrivateTables, Reach;
    var s1 := Step(s, Activate(c)).value;
    StepKeeps(s, Activate(c));
    StepKeepsPrivate(s, Activate(c));
    SameUserFrame(s, s1);
    if MapUserPage(s1, v).Ok? {
      MapUserPageExact(s1, v, d, u);
    }
  }

  lemma SameUserFrame(s: State, s1: State)
    requires LayoutOk(s) && s1 == s.(cr3 := s1.cr3)
    ensures AllocUserFrame(s).Ok? == AllocUserFrame(s1).Ok?
    ensures AllocUserFrame(s).Ok? ==> AllocUserFrame(s).value.1 == AllocUserFrame(s1).value.1
  {
  }

  /** Unmapping: afterwards the page has no translation, and no other has changed. */
  lemma UnmapUserPageExact(s: State, v: Word, d: Word, u: Word)
    requires Inv(s) && PrivateTables(s) && s.cr3 != BOOT_DIR && v < KERNEL_BASE && FreePage(s, v, true).Ok?
    requires d in s.dirs && u < SELF_MAP
    ensures Reach(FreePage(s, v, true).value.mem, d, u) ==
            if d == s.cr3 && u / 4096 == v / 4096 then None else Reach(s.mem, d, u)
    ensures Walk(FreePage(s, v, true).value.mem, d, u) ==
            if d == s.cr3 && u / 4096 == v / 4096 then None else Walk(s.mem, d, u)
  {
    hide FreePage, ClearPte, DirsOk, TablesOk, HeapOk, PdeIdx, PteIdx, Reach, Walk, PrivateTables, Frame, TablePresent,
         PteAt, PdeAt;
    ActiveDir(s);
    ReachIsWalk(s.mem, d, u);
    ReachIsWalk(FreePage(s, v, true).value.mem, d, u);
    UnmapUserIs(s, v);
    TableIsNoDir(s, s.cr3, v, d, u);
    ClearPteTranslations(s.mem, s.cr3, v, d, u);
    if d == s.cr3 && u / 4096 == v / 4096 {
      SameEntry(s.mem, d, u, v);
    } else if TablePresent(s.mem, d, u) {
      EntriesDiffer(s, v, d, u);
    }
  }

  /** After any run from boot, mapping and unmapping a user page do this. */
  lemma UserPagesArePrivate(s0: State, es: seq<Event>, s: State, v: Word, d: Word, u: Word)
    requires Booted(s0) && Run(s0, es) == Some(Ok(s)) && s.cr3 != BOOT_DIR && v < KERNEL_BASE
    requires d in s.dirs && u < SELF_MAP && (d != s.cr3 || u / 4096 != v / 4096)
    ensures LayoutOk(s)
    ensures MapUserPage(s, v).Ok? ==> Reach(MapUserPage(s, v).value.mem, d, u) == Reach(s.mem, d, u)
    ensures FreePage(s, v, true).Ok? ==> Reach(FreePage(s, v, true).value.mem, d, u) == Reach(s.mem, d, u)
  {
    hide DirsOk, TablesOk, HeapOk, Run, Booted, PrivateTables, MapUserPage, FreePage, Reach;
    BootedIsInv(s0);
    BootedIsPrivate(s0);
    RunKeepsPrivate(s0, es);
    if MapUserPage(s, v).Ok? {
      MapUserPageExact(s, v, d, u);
    }
    if FreePage(s, v, true).Ok? {
      UnmapUserPageExact(s, v, d, u);
    }
  }
}
