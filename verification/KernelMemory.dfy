/** Page allocation of os/kernel/mem.c and os/kernel/proc.c as functions on the whole memory state: the two
    frame bitmaps, the bitmap of kernel heap pages, physical memory and cr3. */
module KernelMemory {
  import opened Words
  import opened Bitmaps
  import opened Paging

  const BOOT_DIR: Word := 0x100000
  const KERNEL_TABLES: Word := 0x101000
  const HEAP_START: Word := 0xc0100000
  const KERNEL_BASE: Word := 0xc0000000

  /** `dirs` are the page directories that exist: the boot loader's and those of create_page_dir. */
  datatype State = State(kbits: seq<bool>, ubits: seq<bool>, vbits: seq<bool>,
                         kStart: Word, uStart: Word, mem: Mem, cr3: Word, dirs: set<Word>)

  // ---------------------------------------------------------------- the operations

  /** alloc_physical_pages(&kernel_pool): the state and the frame. */
  ghost function AllocKernelFrame(s: State): Outcome<(State, int)>
    requires |s.kbits| % 8 == 0
  {
    match ScanBits(s.kbits, 1)
    case Found(i) => if i < |s.kbits| then Ok((s.(kbits := s.kbits[i := true]), s.kStart + 4096 * i)) else Halt
    case _ => Halt
  }

  /** alloc_physical_pages(&user_pool) */
  ghost function AllocUserFrame(s: State): Outcome<(State, int)>
    requires |s.ubits| % 8 == 0
  {
    match ScanBits(s.ubits, 1)
    case Found(i) => if i < |s.ubits| then Ok((s.(ubits := s.ubits[i := true]), s.uStart + 4096 * i)) else Halt
    case _ => Halt
  }

  /** free_physical_pages: the pool is chosen by comparing with the start of the user pool. */
  ghost function FreeFrame(s: State, p: Word): Outcome<State> {
    if p >= s.uStart then
      var i := (p - s.uStart) / 4096;
      if i < |s.ubits| then Ok(s.(ubits := s.ubits[i := false])) else Halt
    else if p >= s.kStart && (p - s.kStart) / 4096 < |s.kbits| then
      Ok(s.(kbits := s.kbits[(p - s.kStart) / 4096 := false]))
    else Halt
  }

  /** insert_page_table under the active directory. */
  ghost function InsertPage(s: State, v: Word, p: Word): Outcome<State>
    requires |s.kbits| % 8 == 0
  {
    if TablePresent(s.mem, s.cr3, v) then Ok(s.(mem := SetPte(s.mem, s.cr3, v, p)))
    else
      match AllocKernelFrame(s)
      case Halt => Halt
      case Ok((s1, t)) =>
        if 0 <= t < 0x1_0000_0000 then Ok(s1.(mem := SetPteInNewTable(s.mem, s.cr3, v, p, t))) else Halt
  }

  ghost function SetRun(bits: seq<bool>, j: nat, n: nat, b: bool): (r: seq<bool>)
    requires j + n <= |bits|
    ensures |r| == |bits|
    ensures forall k :: 0 <= k < |bits| ==> r[k] == if j <= k < j + n then b else bits[k]
  {
    seq(|bits|, k requires 0 <= k < |bits| => if j <= k < j + n then b else bits[k])
  }

  function HeapAddr(j: nat): Word
    requires j <= 0x8000
  {
    HEAP_START + 4096 * j
  }

  /** The loop of malloc_pages(PF_KERNEL, ..) from heap page `j` on. */
  ghost function MapPages(s: State, j: nat, n: nat): (r: Outcome<State>)
    requires |s.kbits| % 8 == 0 && j + n <= 0x8000
    ensures r.Ok? ==> |r.value.kbits| == |s.kbits|
    decreases n
  {
    if n == 0 then Ok(s)
    else
      match AllocKernelFrame(s)
      case Halt => Halt
      case Ok((s1, f)) =>
        if 0 <= f < 0x1_0000_0000 then
          match InsertPage(s1, HeapAddr(j), f)
          case Halt => Halt
          case Ok(s2) => MapPages(s2, j + 1, n - 1)
        else Halt
  }

  /** malloc_pages(PF_KERNEL, n): the new state and the first heap page. */
  ghost function MallocPages(s: State, n: nat): Outcome<(State, nat)>
    requires |s.kbits| % 8 == 0 && |s.vbits| % 8 == 0 && |s.vbits| <= 0x8000
  {
    match ScanBits(s.vbits, n)
    case Found(j) =>
      if j + n > |s.vbits| then Halt
      else
        (match MapPages(s.(vbits := SetRun(s.vbits, j, n, true)), j, n)
         case Halt => Halt
         case Ok(s') => Ok((s', j)))
    case _ => Halt
  }

  /** One round of a loop of free_pages: the assertion of the branch (`user` or not), the frame, the entry. */
  ghost function FreePage(s: State, v: Word, user: bool): Outcome<State> {
    if Walk(s.mem, s.cr3, PteAddr(v)).None? then Halt
    else
      var p := AddrV2p(s.mem, s.cr3, v);
      if p % 4096 != 0 || (if user then p < s.uStart else p < s.kStart || p >= s.uStart) then Halt
      else
        match FreeFrame(s, p)
        case Halt => Halt
        case Ok(s1) => Ok(s1.(mem := ClearPte(s.mem, s.cr3, v)))
  }

  /** A loop of free_pages on heap pages, from page `j` on. */
  ghost function UnmapPages(s: State, j: nat, n: nat, user: bool): Outcome<State>
    requires j + n <= 0x8000
    decreases n
  {
    if n == 0 then Ok(s)
    else
      match FreePage(s, HeapAddr(j), user)
      case Halt => Halt
      case Ok(s1) => UnmapPages(s1, j + 1, n - 1, user)
  }

  /** free_pages(PF_KERNEL, heap page j, n) */
  ghost function FreePages(s: State, j: nat, n: nat): Outcome<State>
    requires j + n <= |s.vbits| <= 0x8000
  {
    if n == 0 || Walk(s.mem, s.cr3, PteAddr(HeapAddr(j))).None? then Halt
    else
      var p := AddrV2p(s.mem, s.cr3, HeapAddr(j));
      if p % 4096 != 0 || p < 0x102000 then Halt
      else
        match UnmapPages(s, j, n, p >= s.uStart)
        case Halt => Halt
        case Ok(s1) => if |s1.vbits| == |s.vbits| then Ok(s1.(vbits := SetRun(s1.vbits, j, n, false))) else Halt
  }

  /** The 256 directory entries that create_page_dir copies from the active directory. */
  function CopyKernelEntries(m: Mem, from: Word, to: Word): Mem {
    x => if to + 3072 <= x < to + 4096 then m(x - to + from) else m(x)
  }

  /** The contents of a new directory in frame `d`, made while `from` is active. */
  function NewDirectory(m: Mem, from: Word, d: Word): Mem {
    Store(CopyKernelEntries(ZeroFrame(m, d), from, d), d + 4092, Entry(d))
  }

  /** create_page_dir; get_kernel_pages zeroes the page it returns. */
  ghost function CreatePageDir(s: State): Outcome<(State, Word)>
    requires |s.kbits| % 8 == 0 && |s.vbits| % 8 == 0 && |s.vbits| <= 0x8000
  {
    match MallocPages(s, 1)
    case Halt => Halt
    case Ok((s1, j)) =>
      if j >= 0x8000 || Walk(s1.mem, s1.cr3, PteAddr(HeapAddr(j))).None? then Halt
      else
        var d := AddrV2p(s1.mem, s1.cr3, HeapAddr(j));
        Ok((s1.(mem := NewDirectory(s1.mem, s1.cr3, d), dirs := s1.dirs + {d}), d))
  }

  /** get_a_page(PF_USER, v) without the per-process bitmap: a user frame is mapped at `v`. */
  ghost function MapUserPage(s: State, v: Word): Outcome<State>
    requires |s.kbits| % 8 == 0 && |s.ubits| % 8 == 0
  {
    match AllocUserFrame(s)
    case Halt => Halt
    case Ok((s1, f)) => if 0 <= f < 0x1_0000_0000 then InsertPage(s1, v, f) else Halt
  }
}
