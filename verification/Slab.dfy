/** sys_malloc and sys_free of os/kernel/mem.c for kernel threads, as functions on the state of the page
    allocator, the arena headers and the seven free lists. */
module Slab {
  import opened Words
  import opened Paging
  import opened KernelMemory

  const ARENA_HEADER := 12
  const DESC_CNT := 7

  /** The header at the start of an arena. */
  datatype Arena = Small(desc: nat, cnt: nat) | Large(pages: nat)

  /** `arenas` holds the headers by heap page, `free` the free lists of the descriptors, `poolSize` is
      kernel_pool.pool_size. */
  datatype Heap = Heap(mm: State, arenas: map<nat, Arena>, free: seq<seq<int>>, poolSize: nat)

  /** What block_desc_init stores. */
  function BlockSize(c: nat): (s: nat)
    requires c < DESC_CNT
    ensures 16 <= s <= 1024
  {
    match c
    case 0 => 16
    case 1 => 32
    case 2 => 64
    case 3 => 128
    case 4 => 256
    case 5 => 512
    case _ => 1024
  }

  function BlocksPerArena(c: nat): (n: nat)
    requires c < DESC_CNT
    ensures 3 <= n <= 255
  {
    (4096 - ARENA_HEADER) / BlockSize(c)
  }

  /** The loop of sys_malloc over the descriptors; DESC_CNT when no class is larger than `size`. */
  function ClassFrom(size: nat, c: nat): (r: nat)
    requires c <= DESC_CNT
    ensures c <= r <= DESC_CNT
    decreases DESC_CNT - c
  {
    if c < DESC_CNT && size >= BlockSize(c) then ClassFrom(size, c + 1) else c
  }

  /** arena_to_block, for the arena in heap page `p`. */
  function BlockAddr(p: nat, c: nat, i: nat): int
    requires p <= 0x8000 && c < DESC_CNT
  {
    HeapAddr(p) + ARENA_HEADER + i * BlockSize(c)
  }

  /** block_to_arena, as a heap page. */
  function PageOf(b: Word): int {
    (Frame(b) - HEAP_START) / 4096
  }

  function RemoveFirst(s: seq<int>, x: int): (r: seq<int>)
    requires x in s
    ensures |r| == |s| - 1
  {
    if s[0] == x then s[1..] else [s[0]] + RemoveFirst(s[1..], x)
  }

  /** The loop of sys_malloc that puts the blocks i.. of a new arena on the free list. */
  function FillFrom(free: seq<int>, p: nat, c: nat, i: nat): Outcome<seq<int>>
    requires p <= 0x8000 && c < DESC_CNT && i <= BlocksPerArena(c)
    decreases BlocksPerArena(c) - i
  {
    if i == BlocksPerArena(c) then Ok(free)
    else if BlockAddr(p, c, i) in free then Halt
    else FillFrom(free + [BlockAddr(p, c, i)], p, c, i + 1)
  }

  /** The loop of sys_free that takes the blocks i.. of an empty arena off the free list. */
  function DrainFrom(free: seq<int>, p: nat, c: nat, i: nat): Outcome<seq<int>>
    requires p <= 0x8000 && c < DESC_CNT && i <= BlocksPerArena(c)
    decreases BlocksPerArena(c) - i
  {
    if i == BlocksPerArena(c) then Ok(free)
    else if BlockAddr(p, c, i) !in free then Halt
    else DrainFrom(RemoveFirst(free, BlockAddr(p, c, i)), p, c, i + 1)
  }

  ghost predicate PagesOk(s: State) {
    |s.kbits| % 8 == 0 && |s.vbits| % 8 == 0 && |s.vbits| <= 0x8000
  }

  /** A new arena for class `c`. */
  ghost function NewArena(h: Heap, c: nat): Outcome<Heap>
    requires PagesOk(h.mm) && c < DESC_CNT && |h.free| == DESC_CNT
  {
    match MallocPages(h.mm, 1)
    case Halt => Halt
    case Ok((mm, p)) =>
      if p >= 0x8000 then Halt
      else
        match FillFrom(h.free[c], p, c, 0)
        case Halt => Halt
        case Ok(l) => Ok(h.(mm := mm, arenas := h.arenas[p := Small(c, BlocksPerArena(c))], free := h.free[c := l]))
  }

  /** The first block of the free list of class `c`. */
  function PopBlock(h: Heap, c: nat): Outcome<(Heap, int)>
    requires c < DESC_CNT && |h.free| == DESC_CNT
  {
    if h.free[c] == [] then Halt
    else
      var b := h.free[c][0];
      if !(0 <= b < 0x1_0000_0000) || PageOf(b) !in h.arenas then Halt
      else
        match h.arenas[PageOf(b)]
        case Large(_) => Halt
        case Small(d, cnt) =>
          if cnt == 0 then Halt
          else Ok((h.(arenas := h.arenas[PageOf(b) := Small(d, cnt - 1)], free := h.free[c := h.free[c][1..]]), b))
  }

  /** sys_malloc; `None` is the null pointer. */
  ghost function SysMalloc(h: Heap, size: Word): Outcome<(Heap, Option<int>)>
    requires PagesOk(h.mm) && |h.free| == DESC_CNT
  {
    if !(0 < size < h.poolSize) then Ok((h, None))
    else if size > 1024 then
      var n := (size + ARENA_HEADER + 4095) / 4096;
      match MallocPages(h.mm, n)
      case Halt => Halt
      case Ok((mm, p)) =>
        if p >= 0x8000 then Halt
        else Ok((h.(mm := mm, arenas := h.arenas[p := Large(n)]), Some(HeapAddr(p) + ARENA_HEADER)))
    else
      var c := ClassFrom(size, 0);
      if c == DESC_CNT then Halt
      else
        match (if h.free[c] == [] then NewArena(h, c) else Ok(h))
        case Halt => Halt
        case Ok(h1) =>
          if |h1.free| != DESC_CNT then Halt
          else
            match PopBlock(h1, c)
            case Halt => Halt
            case Ok((h2, b)) => Ok((h2, Some(b)))
  }

  /** remove_virtual_pages(PF_KERNEL, ..) */
  ghost function RemoveVirtual(s: State, p: nat, n: nat): Outcome<State> {
    if p + n <= |s.vbits| then Ok(s.(vbits := SetRun(s.vbits, p, n, false))) else Halt
  }

  /** sys_free; only pointers that sys_malloc has returned have a header to look at. */
  ghost function SysFree(h: Heap, b: Word): Outcome<Heap>
    requires |h.free| == DESC_CNT
  {
    var p := PageOf(b);
    if b < HEAP_START || p !in h.arenas || p > 0x8000 then Halt
    else
      match h.arenas[p]
      case Large(n) =>
        (match RemoveVirtual(h.mm, p, n)
         case Halt => Halt
         case Ok(mm) => Ok(h.(mm := mm, arenas := h.arenas - {p})))
      case Small(c, cnt) =>
        if c >= DESC_CNT then Halt
        else
          var l := h.free[c] + [b];
          if cnt + 1 != BlocksPerArena(c) then
            Ok(h.(arenas := h.arenas[p := Small(c, cnt + 1)], free := h.free[c := l]))
          else
            match DrainFrom(l, p, c, 0)
            case Halt => Halt
            case Ok(l') =>
              match RemoveVirtual(h.mm, p, 1)
              case Halt => Halt
              case Ok(mm) => Ok(h.(mm := mm, arenas := h.arenas - {p}, free := h.free[c := l']))
  }
}
