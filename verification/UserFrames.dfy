/** The frames of user processes. As long as callers unmap only pages that are present, no two pages hold the same
    frame, in one process or in two, and no frame of a page is handed out again. */
module UserFrames {
  import opened Words
  import opened Paging
  import opened KernelMemory
  import opened HeapInvariant
  import opened HeapSteps
  import opened HeapRuns
  import opened UserPages

  /** Page `u` is present in the process with directory `d`. */
  ghost predicate Mapped(s: State, d: Word, u: Word) {
    d in s.dirs && d != BOOT_DIR && u < KERNEL_BASE && u % 4096 == 0 && Walk(s.mem, d, u).Some?
  }

  /** `f` is a frame of the user pool that is in use. */
  ghost predicate UserFrame(s: State, f: int) {
    f % 4096 == 0 && f >= s.uStart && (f - s.uStart) / 4096 < |s.ubits| && s.ubits[(f - s.uStart) / 4096]
  }

  /** User mode may read and write the page. */
  ghost predicate Usable(s: State, d: Word, u: Word) {
    Reach(s.mem, d, u).Some? && Reach(s.mem, d, u).value.user && Reach(s.mem, d, u).value.write
  }

  ghost predicate FramesOwned(s: State) {
    && (forall d: Word, u: Word :: Mapped(s, d, u) ==> UserFrame(s, Walk(s.mem, d, u).value) && Usable(s, d, u))
    && (forall d: Word, u: Word, e: Word, w: Word :: Mapped(s, d, u) && Mapped(s, e, w) && (d != e || u != w) ==>
          Walk(s.mem, d, u).value != Walk(s.mem, e, w).value)
  }

  // ---------------------------------------------------------------- steps that leave user pages alone

  /** Every user page of `s'` was there before. */
  ghost predicate NoNewPages(s: State, s': State) {
    forall d: Word, u: Word :: Mapped(s', d, u) ==>
      Mapped(s, d, u) && Walk(s'.mem, d, u) == Walk(s.mem, d, u) && Reach(s'.mem, d, u) == Reach(s.mem, d, u)
  }

  lemma StayOwned(s: State, s': State)
    requires FramesOwned(s) && NoNewPages(s, s') && s'.ubits == s.ubits && s'.uStart == s.uStart
    ensures FramesOwned(s')
  {
    hide Walk, Reach;
    assert forall f :: UserFrame(s', f) == UserFrame(s, f);
  }

  /** Directories and the page tables of processes keep their words. */
  ghost predicate SameTables(s: State, s': State) {
    && (forall d: Word, i: nat :: d in s.dirs && i < 1024 ==> Pde(s'.mem, d, i) == Pde(s.mem, d, i))
    && (forall d: Word, i: nat, k: nat :: UserEntry(s, d, i) && d != BOOT_DIR && k < 1024 ==>
          Pde(s'.mem, Frame(Pde(s.mem, d, i)), k) == Pde(s.mem, Frame(Pde(s.mem, d, i)), k))
  }

  lemma SameTablesWalk(s: State, s': State, d: Word, u: Word)
    requires SameTables(s, s') && d in s.dirs && d != BOOT_DIR && u < KERNEL_BASE
    ensures Walk(s'.mem, d, u) == Walk(s.mem, d, u) && Reach(s'.mem, d, u) == Reach(s.mem, d, u)
  {
    var i, k := PdeIdx(u), PteIdx(u);
    assert i < 768;
    assert s.mem(PdeAt(d, u)) == Pde(s.mem, d, i) && s'.mem(PdeAt(d, u)) == Pde(s'.mem, d, i);
    hide PdeIdx, PteIdx, Frame, Present;
    if TablePresent(s.mem, d, u) {
      assert UserEntry(s, d, i);
      assert Pde(s'.mem, Frame(Pde(s.mem, d, i)), k) == s'.mem(PteAt(s.mem, d, u));
    }
    WalkFrame(s.mem, s'.mem, d, u);
  }

  lemma SameTablesNoNew(s: State, s': State)
    requires SameTables(s, s') && s'.dirs == s.dirs
    ensures NoNewPages(s, s')
  {
    forall d: Word, u: Word | Mapped(s', d, u)
      ensures Mapped(s, d, u) && Walk(s'.mem, d, u) == Walk(s.mem, d, u) && Reach(s'.mem, d, u) == Reach(s.mem, d, u)
    {
      hide SameTables, Walk, Reach;
      SameTablesWalk(s, s', d, u);
    }
  }

  /** The page tables of a process are frames of the kernel pool. */
  lemma TableFrame(s: State, d: Word, i: nat)
    requires TablesOk(s) && UserEntry(s, d, i) && d != BOOT_DIR && s.kStart == 0x200000
    ensures var t := Frame(Pde(s.mem, d, i)); KernelFrame(s, t) && t !in s.dirs && t % 4096 == 0 && t >= 0x200000
  {
    hide Frame, Pde;
  }

  /** The entries of heap pages lie apart from everything in the pools. */
  lemma HeapEntriesApart(s: State, s': State, j: nat, n: nat)
    requires Inv(s) && j + n <= |s.vbits|
    requires forall a :: !(EntryAt(j) <= a < EntryAt(j + n)) ==> s'.mem(a) == s.mem(a)
    ensures SameTables(s, s')
  {
    EntriesAreNotInDirs(s, s', j, n);
    assert EntryAt(j + n) <= 0x200000;
    forall d: Word, i: nat, k: nat | UserEntry(s, d, i) && d != BOOT_DIR && k < 1024
      ensures Pde(s'.mem, Frame(Pde(s.mem, d, i)), k) == Pde(s.mem, Frame(Pde(s.mem, d, i)), k)
    {
      hide TablesOk, DirsOk, HeapOk, Frame, UserEntry, KernelFrame, EntryAt;
      TableFrame(s, d, i);
    }
  }

  lemma MallocLeaves(s: State, n: nat)
    requires Inv(s) && MallocPages(s, n).Ok?
    ensures var s' := MallocPages(s, n).value.0;
            && SameTables(s, s') && s'.dirs == s.dirs && s'.ubits == s.ubits && s'.uStart == s.uStart
  {
    hide MallocPages, DirsOk, TablesOk, HeapOk, FramesTaken, SameTables;
    MallocPagesKeeps(s, n);
    var (s', j) := MallocPages(s, n).value;
    HeapEntriesApart(s, s', j, n);
  }

  lemma FreeLeaves(s: State, j: nat, n: nat)
    requires Inv(s) && Freeable(s, j, n)
    ensures FreePages(s, j, n).Ok?
    ensures var s' := FreePages(s, j, n).value;
            && SameTables(s, s') && s'.dirs == s.dirs && s'.ubits == s.ubits && s'.uStart == s.uStart
  {
    hide FreePages, DirsOk, TablesOk, HeapOk, FramesReleased, SameTables, FrameOf;
    FreePagesKeeps(s, j, n);
    HeapEntriesApart(s, FreePages(s, j, n).value, j, n);
  }

  lemma WriteLeaves(s: State, a: int, w: Word)
    requires Inv(s) && a >= 0x200000 && a - a % 4096 !in s.dirs && !IsTable(s, a - a % 4096)
    ensures SameTables(s, s.(mem := Store(s.mem, a, w)))
  {
    var s' := s.(mem := Store(s.mem, a, w));
    forall d: Word, i: nat | d in s.dirs && i < 1024 ensures Pde(s'.mem, d, i) == Pde(s.mem, d, i) {
      hide IsTable, TablesOk, HeapOk;
      OutsideWord(s, a, d, i);
    }
    forall d: Word, i: nat, k: nat | UserEntry(s, d, i) && d != BOOT_DIR && k < 1024
      ensures Pde(s'.mem, Frame(Pde(s.mem, d, i)), k) == Pde(s.mem, Frame(Pde(s.mem, d, i)), k)
    {
      hide DirsOk, TablesOk, HeapOk, Frame, UserEntry, KernelFrame;
      TableFrame(s, d, i);
      assert Frame(Pde(s.mem, d, i)) != a - a % 4096;
      WordOfFrame(Frame(Pde(s.mem, d, i)), k);
    }
  }

  lemma WordOfFrame(t: int, k: nat)
    requires t % 4096 == 0 && k < 1024
    ensures (t + 4 * k) - (t + 4 * k) % 4096 == t
  {
  }

  /** Pages below the user half's end have no translation under a directory whose user entries are 0. */
  lemma NewDirHasNoPages(m: Mem, d: Word, u: Word)
    requires (forall k: nat :: k < 768 ==> Pde(m, d, k) == 0) && u < KERNEL_BASE
    ensures Walk(m, d, u) == None
  {
    assert PdeIdx(u) < 768 && Pde(m, d, PdeIdx(u)) == m(PdeAt(d, u)) && !Present(0);
  }

  /** The frame of a settled page becomes a directory. */
  lemma NewDirTables(s: State, s': State, j: nat, d: Word)
    requires Inv(s) && Settled(s, 0, 0, j) && d == FrameOf(s, j) && d !in s.dirs && d % 4096 == 0
    requires forall x :: !(d <= x < d + 4096) ==> s'.mem(x) == s.mem(x)
    ensures SameTables(s, s')
  {
    OtherDirsStay(s, d, s'.mem);
    forall e: Word, i: nat, k: nat | UserEntry(s, e, i) && e != BOOT_DIR && k < 1024
      ensures Pde(s'.mem, Frame(Pde(s.mem, e, i)), k) == Pde(s.mem, Frame(Pde(s.mem, e, i)), k)
    {
      assert FrameOf(s, j) != Frame(Pde(s.mem, e, i));
      hide DirsOk, TablesOk, HeapOk, Frame, UserEntry, KernelFrame, FrameOf;
      TableFrame(s, e, i);
      SameWord(Frame(Pde(s.mem, e, i)), k, d, 0);
    }
  }

  lemma NoNewTwice(s: State, s1: State, s': State)
    requires NoNewPages(s, s1) && NoNewPages(s1, s')
    ensures NoNewPages(s, s')
  {
    hide Mapped, Walk, Reach;
  }

  lemma NewDirLeaves(s: State)
    requires Inv(s) && CreatePageDir(s).Ok?
    ensures var s' := CreatePageDir(s).value.0;
            NoNewPages(s, s') && s'.ubits == s.ubits && s'.uStart == s.uStart
  {
    hide CreatePageDir, MallocPages, NewDirectory, Frame, KernelFrame, SameTables, NoNewPages;
    CreatePageDirIs(s);
    MallocLeaves(s, 1);
    var (s1, j) := MallocPages(s, 1).value;
    var d := FrameOf(s1, j);
    var s' := CreatePageDir(s).value.0;
    assert KernelFrame(s1, d) && d % 4096 == 0;
    assert s1.cr3 % 4096 == 0 && s1.cr3 != d;
    hide DirsOk, TablesOk, HeapOk, FrameOf, KernelHalf, Settled;
    NewDirEntries(s1.mem, s1.cr3, d);
    NewDirTables(s1, s', j, d);
    SameTablesNoNew(s, s1);
    NewDirNoNew(s1, s', d);
    NoNewTwice(s, s1, s');
  }

  lemma NewDirNoNew(s: State, s': State, d: Word)
    requires SameTables(s, s') && s'.dirs == s.dirs + {d} && forall k: nat :: k < 768 ==> Pde(s'.mem, d, k) == 0
    ensures NoNewPages(s, s')
  {
    forall e: Word, u: Word | Mapped(s', e, u)
      ensures Mapped(s, e, u) && Walk(s'.mem, e, u) == Walk(s.mem, e, u) && Reach(s'.mem, e, u) == Reach(s.mem, e, u)
    {
      hide SameTables, Walk, Reach;
      if e == d {
        NewDirHasNoPages(s'.mem, d, u);
      }
      SameTablesWalk(s, s', e, u);
    }
  }

  // ---------------------------------------------------------------- mapping and unmapping

  lemma PageBase(u: Word, v: Word)
    requires u % 4096 == 0 && v % 4096 == 0
    ensures u / 4096 == v / 4096 <==> u == v
  {
  }

  /** get_a_page takes a frame that no page holds. */
  lemma MapOwned(s: State, v: Word)
    requires Inv(s) && PrivateTables(s) && FramesOwned(s) && MapUserPage(s, v).Ok?
    requires s.cr3 != BOOT_DIR && v < KERNEL_BASE
    ensures FramesOwned(MapUserPage(s, v).value)
  {
    hide MapUserPage, AllocUserFrame, DirsOk, TablesOk, HeapOk, PrivateTables, Walk, Reach;
    var s' := MapUserPage(s, v).value;
    MapUserMarks(s, v);
    FreshUserFrame(s);
    var f := AllocUserFrame(s).value.1;
    assert !UserFrame(s, f) && UserFrame(s', f);
    assert forall g :: UserFrame(s, g) ==> UserFrame(s', g);
    forall d: Word, u: Word | Mapped(s', d, u)
      ensures || (Walk(s'.mem, d, u).value == f && Usable(s', d, u) && d == s.cr3 && u / 4096 == v / 4096)
              || (Mapped(s, d, u) && Walk(s'.mem, d, u) == Walk(s.mem, d, u)
                  && Reach(s'.mem, d, u) == Reach(s.mem, d, u))
    {
      hide UserFrame, FramesOwned;
      MapUserPageExact(s, v, d, u);
    }
    OneNewFrame(s, s', s.cr3, v, f);
  }

  lemma MapUserMarks(s: State, v: Word)
    requires Inv(s) && MapUserPage(s, v).Ok? && s.cr3 != BOOT_DIR && v < KERNEL_BASE
    ensures AllocUserFrame(s).Ok?
    ensures var s' := MapUserPage(s, v).value;
            s'.ubits == AllocUserFrame(s).value.0.ubits && s'.uStart == s.uStart && s'.dirs == s.dirs
            && s'.cr3 == s.cr3
  {
    hide DirsOk, TablesOk, HeapOk, SetPte, SetPteInNewTable, TablePresent;
    FreshUserFrame(s);
    FreshFrame(AllocUserFrame(s).value.0);
  }

  lemma OneNewFrame(s: State, s': State, c: Word, v: Word, f: int)
    requires FramesOwned(s) && !UserFrame(s, f) && UserFrame(s', f)
    requires forall g :: UserFrame(s, g) ==> UserFrame(s', g)
    requires forall d: Word, u: Word :: Mapped(s', d, u) ==>
               || (Walk(s'.mem, d, u).value == f && Usable(s', d, u) && d == c && u / 4096 == v / 4096)
               || (Mapped(s, d, u) && Walk(s'.mem, d, u) == Walk(s.mem, d, u)
                   && Reach(s'.mem, d, u) == Reach(s.mem, d, u))
    ensures FramesOwned(s')
  {
    hide Walk, Reach, UserFrame;
    forall d: Word, u: Word, e: Word, w: Word | Mapped(s', d, u) && Mapped(s', e, w) && (d != e || u != w)
      ensures Walk(s'.mem, d, u).value != Walk(s'.mem, e, w).value
    {
      PageBase(u, w);
    }
  }

  /** The frame that the entry of `v` names, present or not. */
  ghost function Named(s: State, v: Word): Word {
    Frame(s.mem(PteAt(s.mem, s.cr3, v)))
  }

  /** One round of free_pages: the frame that the entry names is given back. */
  lemma UnmapUserMarks(s: State, v: Word)
    requires Inv(s) && s.cr3 != BOOT_DIR && v < KERNEL_BASE && FreePage(s, v, true).Ok?
    ensures v % 4096 == Named(s, v) % 4096 == 0 && Named(s, v) >= s.uStart
            && (Named(s, v) - s.uStart) / 4096 < |s.ubits|
    ensures Walk(s.mem, s.cr3, v).Some? ==> Walk(s.mem, s.cr3, v) == Some(Named(s, v))
    ensures var s' := FreePage(s, v, true).value;
            s'.ubits == s.ubits[(Named(s, v) - s.uStart) / 4096 := false] && s'.uStart == s.uStart
            && s'.dirs == s.dirs && s'.cr3 == s.cr3
  {
    assert KernelHalf(s.mem, s.cr3);
    hide DirsOk, TablesOk, HeapOk, KernelHalf, PteAddr, PteAt, Walk, ClearPte, TablePresent, AddrV2p, SelfMapped;
    UnmapUserIs(s, v);
    SelfEntry(s.mem, s.cr3);
    V2pReaches(s.mem, s.cr3, v);
    var p := AddrV2p(s.mem, s.cr3, v);
    assert p % 4096 == 0 && Frame(p) == p && p >= s.uStart;
    hide Frame;
  }

  /** Some page that is present holds the frame `f`. */
  ghost predicate Holds(s: State, f: int) {
    exists d: Word, u: Word :: Mapped(s, d, u) && Walk(s.mem, d, u).value == f
  }

  /** free_pages does not look at the present bit. Unmapping keeps all frames owned exactly when the page is present, or
      when no page holds the frame that its old entry still names. */
  lemma UnmapOwnedExactly(s: State, v: Word)
    requires Inv(s) && PrivateTables(s) && FramesOwned(s) && FreePage(s, v, true).Ok?
    requires s.cr3 != BOOT_DIR && v < KERNEL_BASE
    ensures FramesOwned(FreePage(s, v, true).value) <==> Walk(s.mem, s.cr3, v).Some? || !Holds(s, Named(s, v))
  {
    assert s.cr3 in s.dirs;
    hide FreePage, DirsOk, TablesOk, HeapOk, PrivateTables, Walk, Reach, Named;
    var s' := FreePage(s, v, true).value;
    UnmapUserMarks(s, v);
    var f := Named(s, v);
    assert !UserFrame(s', f);
    forall g | UserFrame(s, g) && g != f ensures UserFrame(s', g) {
      OtherIndex(s.uStart, f, g);
    }
    forall d: Word, u: Word | d in s.dirs && d != BOOT_DIR && u < KERNEL_BASE && u % 4096 == 0
      ensures Walk(s'.mem, d, u) == if d == s.cr3 && u == v then None else Walk(s.mem, d, u)
      ensures Reach(s'.mem, d, u) == if d == s.cr3 && u == v then None else Reach(s.mem, d, u)
    {
      hide UserFrame, FramesOwned;
      UnmapUserPageExact(s, v, d, u);
      PageBase(u, v);
    }
    OneFrameLess(s, s', v, f);
  }

  lemma OtherIndex(start: int, f: int, g: int)
    requires start % 4096 == 0 && f % 4096 == 0 && g % 4096 == 0 && f != g
    ensures (f - start) / 4096 != (g - start) / 4096
  {
  }

  lemma OneFrameLess(s: State, s': State, v: Word, f: int)
    requires FramesOwned(s) && !UserFrame(s', f) && s'.dirs == s.dirs && s.cr3 in s.dirs && s.cr3 != BOOT_DIR
    requires v < KERNEL_BASE && v % 4096 == 0
    requires forall g :: UserFrame(s, g) && g != f ==> UserFrame(s', g)
    requires forall d: Word, u: Word :: d in s.dirs && d != BOOT_DIR && u < KERNEL_BASE && u % 4096 == 0 ==>
               && Walk(s'.mem, d, u) == (if d == s.cr3 && u == v then None else Walk(s.mem, d, u))
               && Reach(s'.mem, d, u) == if d == s.cr3 && u == v then None else Reach(s.mem, d, u)
    requires Walk(s.mem, s.cr3, v).Some? ==> Walk(s.mem, s.cr3, v).value == f
    ensures FramesOwned(s') <==> Walk(s.mem, s.cr3, v).Some? || !Holds(s, f)
  {
    hide Walk, Reach, UserFrame;
    assert forall d: Word, u: Word :: Mapped(s', d, u) <==> Mapped(s, d, u) && !(d == s.cr3 && u == v);
    if Walk(s.mem, s.cr3, v).Some? {
      assert Mapped(s, s.cr3, v);
    } else if Holds(s, f) {
      var d: Word, u: Word :| Mapped(s, d, u) && Walk(s.mem, d, u).value == f;
      assert Mapped(s', d, u);
    }
  }

  // ---------------------------------------------------------------- runs

  /** Callers unmap only what is mapped. */
  ghost predicate Careful(s: State, e: Event) {
    e.UnmapUser? ==> Walk(s.mem, s.cr3, e.v).Some?
  }

  lemma StepKeepsOwned(s: State, e: Event)
    requires Inv(s) && PrivateTables(s) && FramesOwned(s) && Legal(s, e) && Careful(s, e) && Step(s, e).Ok?
    ensures FramesOwned(Step(s, e).value)
  {
    hide DirsOk, TablesOk, HeapOk, MallocPages, FreePages, CreatePageDir, MapUserPage, FreePage, Freeable, IsTable,
         PrivateTables, SameTables, FramesOwned, NoNewPages, Walk, Reach;
    var s' := Step(s, e).value;
    match e
    case Malloc(n) => MallocLeaves(s, n); SameTablesNoNew(s, s'); StayOwned(s, s');
    case Free(j, n) => FreeLeaves(s, j, n); SameTablesNoNew(s, s'); StayOwned(s, s');
    case FreeVirtual(j, n) => SameMemory(s, s'); StayOwned(s, s');
    case NewDir => NewDirLeaves(s); StayOwned(s, s');
    case Activate(d) => SameMemory(s, s'); StayOwned(s, s');
    case MapUser(v) => MapOwned(s, v);
    case UnmapUser(v) => UnmapOwnedExactly(s, v);
    case Write(a, w) => WriteLeaves(s, a, w); SameTablesNoNew(s, s'); StayOwned(s, s');
  }

  lemma SameMemory(s: State, s': State)
    requires s'.mem == s.mem && s'.dirs == s.dirs
    ensures NoNewPages(s, s')
  {
    hide Walk, Reach;
  }

  ghost predicate AllCareful(s: State, es: seq<Event>)
    requires LayoutOk(s)
    decreases |es|
  {
    es == [] ||
    (Careful(s, es[0]) && Legal(s, es[0]) && Step(s, es[0]).Ok? && LayoutOk(Step(s, es[0]).value)
     && AllCareful(Step(s, es[0]).value, es[1..]))
  }

  lemma {:induction false} RunKeepsOwned(s: State, es: seq<Event>)
    requires Inv(s) && PrivateTables(s) && FramesOwned(s) && Run(s, es).Some? && Run(s, es).value.Ok?
    requires AllCareful(s, es)
    ensures Inv(Run(s, es).value.value) && FramesOwned(Run(s, es).value.value)
    decreases |es|
  {
    hide DirsOk, TablesOk, HeapOk, Step, Legal, PrivateTables, FramesOwned, Careful;
    if es != [] {
      StepKeeps(s, es[0]);
      StepKeepsPrivate(s, es[0]);
      StepKeepsOwned(s, es[0]);
      RunKeepsOwned(Step(s, es[0]).value, es[1..]);
    }
  }

  /** After any run from boot in which callers unmap only what is mapped, user mode may read and write the pages of
      processes; they hold frames that are in use in the user pool and in no other pool, and no frame belongs to two
      pages, of one process or of two. */
  lemma UserFramesAreOwned(s0: State, es: seq<Event>, s: State, d: Word, u: Word, e: Word, w: Word)
    requires Booted(s0) && Run(s0, es) == Some(Ok(s)) && AllCareful(s0, es)
    requires Mapped(s, d, u) && Mapped(s, e, w)
    ensures var f := Walk(s.mem, d, u).value;
            && UserFrame(s, f) && !KernelFrame(s, f) && Usable(s, d, u)
            && (f == Walk(s.mem, e, w).value ==> d == e && u == w)
  {
    hide DirsOk, TablesOk, HeapOk, Run, Walk, Reach, AllCareful, PrivateTables;
    BootedIsInv(s0);
    BootedIsPrivate(s0);
    assert forall x: Word, y: Word :: !Mapped(s0, x, y);
    hide Booted;
    RunKeepsOwned(s0, es);
  }

  // ---------------------------------------------------------------- a page that is unmapped twice

  /** A page of the active process with a page table. */
  ghost predicate HasTable(s: State, x: Word) {
    x < KERNEL_BASE && x % 4096 == 0 && TablePresent(s.mem, s.cr3, x)
  }

  /** Writing the entry of one page leaves tables, and the entries of other pages. */
  lemma WriteOneEntry(s: State, v: Word, w: Word, s': State, x: Word)
    requires Inv(s) && PrivateTables(s) && s.cr3 != BOOT_DIR && HasTable(s, v) && HasTable(s, x)
    requires s'.cr3 == s.cr3 && s'.mem == Store(s.mem, PteAt(s.mem, s.cr3, v), w)
    ensures HasTable(s', x) && Named(s', x) == if x == v then Frame(w) else Named(s, x)
  {
    hide Inv, LayoutOk, DirsOk, TablesOk, HeapOk, PrivateTables, PdeIdx, PteIdx, PdeAt, Frame, Present;
    ActiveDir(s);
    TableIsNoDir(s, s.cr3, v, s.cr3, x);
    PageBase(x, v);
    assert s'.mem(PdeAt(s.cr3, x)) == s.mem(PdeAt(s.cr3, x));
    assert PteAt(s'.mem, s.cr3, x) == PteAt(s.mem, s.cr3, x);
    if x != v {
      EntriesDiffer(s, v, s.cr3, x);
    }
  }

  lemma MapStep(s: State, v: Word, x: Word)
    requires Inv(s) && PrivateTables(s) && s.cr3 != BOOT_DIR && HasTable(s, v) && AllocUserFrame(s).Ok?
    ensures MapUserPage(s, v).Ok?
    ensures var s', f := MapUserPage(s, v).value, AllocUserFrame(s).value.1;
            && Inv(s') && PrivateTables(s') && s'.cr3 == s.cr3 && s'.dirs == s.dirs && s'.uStart == s.uStart
            && f % 4096 == 0 && f >= s.uStart && (f - s.uStart) / 4096 < |s.ubits|
            && !s.ubits[(f - s.uStart) / 4096] && s'.ubits == s.ubits[(f - s.uStart) / 4096 := true]
            && (HasTable(s, x) ==> HasTable(s', x) && Named(s', x) == if x == v then f else Named(s, x))
  {
    FreshUserFrame(s);
    var f: Word := AllocUserFrame(s).value.1;
    hide DirsOk, TablesOk, HeapOk, AllocUserFrame, AllocKernelFrame, PrivateTables, TablePresent, PteAt, Named, Frame;
    assert MapUserPage(s, v).Ok?;
    MapUserMarks(s, v);
    var s' := MapUserPage(s, v).value;
    StepKeeps(s, MapUser(v));
    StepKeepsPrivate(s, MapUser(v));
    if HasTable(s, x) {
      assert Frame(Entry(f)) == f;
      WriteOneEntry(s, v, Entry(f), s', x);
    }
  }

  lemma UnmapStep(s: State, v: Word, x: Word)
    requires Inv(s) && PrivateTables(s) && s.cr3 != BOOT_DIR && HasTable(s, v)
    requires Named(s, v) >= s.uStart && (Named(s, v) - s.uStart) / 4096 < |s.ubits|
    ensures FreePage(s, v, true).Ok?
    ensures var s' := FreePage(s, v, true).value;
            && Inv(s') && PrivateTables(s') && s'.cr3 == s.cr3 && s'.dirs == s.dirs && s'.uStart == s.uStart
            && s'.ubits == s.ubits[(Named(s, v) - s.uStart) / 4096 := false]
            && (HasTable(s, x) ==> HasTable(s', x) && Named(s', x) == Named(s, x))
  {
    UnmapWorks(s, v);
    hide FreePage, DirsOk, TablesOk, HeapOk, PrivateTables, TablePresent, PteAt, Named, Frame;
    UnmapUserMarks(s, v);
    UnmapUserIs(s, v);
    StepKeeps(s, UnmapUser(v));
    StepKeepsPrivate(s, UnmapUser(v));
    if HasTable(s, x) {
      var a := PteAt(s.mem, s.cr3, v);
      assert Frame(Absent(s.mem(a))) == Frame(s.mem(a));
      WriteOneEntry(s, v, Absent(s.mem(a)), FreePage(s, v, true).value, x);
      assert Named(s, v) == Frame(s.mem(a));
    }
  }

  lemma UnmapWorks(s: State, v: Word)
    requires Inv(s) && HasTable(s, v)
    requires Named(s, v) >= s.uStart && (Named(s, v) - s.uStart) / 4096 < |s.ubits|
    ensures FreePage(s, v, true).Ok?
  {
    assert KernelHalf(s.mem, s.cr3);
    hide DirsOk, TablesOk, HeapOk, KernelHalf, PteAddr, PteAt, Walk, ClearPte, TablePresent, AddrV2p, SelfMapped;
    SelfEntry(s.mem, s.cr3);
    V2pReaches(s.mem, s.cr3, v);
    var p := AddrV2p(s.mem, s.cr3, v);
    assert p % 4096 == 0 && Frame(p) == p;
    hide Frame;
  }

  lemma SameFrameAgain(s: State, s': State)
    requires LayoutOk(s) && LayoutOk(s') && s'.ubits == s.ubits && s'.uStart == s.uStart && AllocUserFrame(s).Ok?
    ensures AllocUserFrame(s').Ok? && AllocUserFrame(s').value.1 == AllocUserFrame(s).value.1
  {
  }

  /** The second round on one page: the page has been unmapped, and its frame given to another one. */
  lemma StaleFrame(s: State, v: Word, u: Word, w: Word)
    requires Inv(s) && PrivateTables(s) && s.cr3 != BOOT_DIR && v != u && w != v && w != u
    requires HasTable(s, v) && HasTable(s, u) && HasTable(s, w) && AllocUserFrame(s).Ok?
    ensures MapUserPage(s, v).Ok?
    ensures var s1 := MapUserPage(s, v).value;
            && Inv(s1) && s1.cr3 == s.cr3 && FreePage(s1, v, true).Ok?
            && var s2 := FreePage(s1, v, true).value;
            && Inv(s2) && PrivateTables(s2) && s2.cr3 == s.cr3 && s2.ubits == s.ubits && s2.uStart == s.uStart
            && HasTable(s2, v) && HasTable(s2, u) && HasTable(s2, w) && Named(s2, v) == AllocUserFrame(s).value.1
  {
    hide MapUserPage, FreePage, AllocUserFrame, DirsOk, TablesOk, HeapOk, HasTable, Named, PrivateTables;
    MapStep(s, v, v);
    MapStep(s, v, u);
    MapStep(s, v, w);
    var s1 := MapUserPage(s, v).value;
    UnmapStep(s1, v, v);
    UnmapStep(s1, v, u);
    UnmapStep(s1, v, w);
  }

  /** A process maps and unmaps `v`, maps `u`, unmaps `v` once more, and maps `w`: no step fails, and `u` and `w` end up
      on the same frame. */
  lemma UnmappedTwice(s: State, v: Word, u: Word, w: Word)
    requires Inv(s) && PrivateTables(s) && s.cr3 != BOOT_DIR && v != u && w != v && w != u
    requires HasTable(s, v) && HasTable(s, u) && HasTable(s, w) && AllocUserFrame(s).Ok?
    ensures var r := Run(s, [MapUser(v), UnmapUser(v), MapUser(u), UnmapUser(v), MapUser(w)]);
            && r.Some? && r.value.Ok?
            && Mapped(r.value.value, s.cr3, u) && Mapped(r.value.value, s.cr3, w)
            && Walk(r.value.value.mem, s.cr3, u) == Walk(r.value.value.mem, s.cr3, w)
  {
    hide MapUserPage, FreePage, AllocUserFrame, DirsOk, TablesOk, HeapOk, HasTable, Named, PrivateTables, Walk, Reach,
         Run;
    StaleFrame(s, v, u, w);
    var s1 := MapUserPage(s, v).value;
    var s2 := FreePage(s1, v, true).value;
    var f := AllocUserFrame(s).value.1;
    SameFrameAgain(s, s2);
    MapStep(s2, u, v);
    MapStep(s2, u, u);
    MapStep(s2, u, w);
    var s3 := MapUserPage(s2, u).value;
    UnmapStep(s3, v, w);
    var s4 := FreePage(s3, v, true).value;
    assert s4.ubits == s.ubits;
    SameFrameAgain(s, s4);
    MapStep(s4, w, w);
    var s5 := MapUserPage(s4, w).value;
    UserPage(s2, u);
    UserPage(s2, v);
    UserPage(s2, w);
    PageBase(u, v);
    PageBase(u, w);
    MapUserPageExact(s2, u, s.cr3, u);
    UnmapUserPageExact(s3, v, s.cr3, u);
    MapUserPageExact(s4, w, s.cr3, u);
    MapUserPageExact(s4, w, s.cr3, w);
    var es := [MapUser(v), UnmapUser(v), MapUser(u), UnmapUser(v), MapUser(w)];
    RunOne(s, es);
    assert es[1..] == [UnmapUser(v), MapUser(u), UnmapUser(v), MapUser(w)];
    RunOne(s1, es[1..]);
    assert es[1..][1..] == [MapUser(u), UnmapUser(v), MapUser(w)];
    RunOne(s2, es[1..][1..]);
    assert es[1..][1..][1..] == [UnmapUser(v), MapUser(w)];
    RunOne(s3, es[1..][1..][1..]);
    assert es[1..][1..][1..][1..] == [MapUser(w)];
    RunOne(s4, [MapUser(w)]);
  }

  lemma UserPage(s: State, x: Word)
    requires Inv(s) && HasTable(s, x)
    ensures x < KERNEL_BASE && x % 4096 == 0 && s.cr3 in s.dirs
  {
  }

  lemma RunOne(s: State, es: seq<Event>)
    requires Inv(s) && es != [] && Legal(s, es[0]) && Step(s, es[0]).Ok?
    ensures LayoutOk(Step(s, es[0]).value) && Run(s, es) == Run(Step(s, es[0]).value, es[1..])
    ensures |es| == 1 ==> Run(s, es) == Some(Step(s, es[0]))
  {
    StepKeeps(s, es[0]);
    hide Step, Legal, DirsOk, TablesOk, HeapOk;
  }
}
