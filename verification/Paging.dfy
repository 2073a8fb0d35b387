/** 32-bit paging with 4 KiB pages (Intel SDM volume 3A, section 4.3) and the recursive mapping that
    os/kernel/mem.c uses to reach page tables through virtual addresses. */
module Paging {
  import opened Words

  /** Everything from here on is resolved through entry 1023, the directory's own. */
  const SELF_MAP := 0xffc00000

  // ---------------------------------------------------------------- the hardware

  /** Bits 31..22 and 21..12 of an address: `PDE_IDX` and `PTE_IDX`. */
  function PdeIdx(v: Word): (i: nat)
    ensures i < 1024
  {
    v / 0x400000
  }

  function PteIdx(v: Word): (i: nat)
    ensures i < 1024
  {
    v / 0x1000 % 1024
  }

  /** `w & 0xfffff000` */
  function Frame(w: Word): (f: Word)
    ensures f % 4096 == 0 && f <= w < f + 4096 && f <= 0xfffff000
    ensures w % 4096 == 0 ==> f == w
  {
    w - w % 4096
  }

  predicate Present(w: Word) {
    w % 2 == 1
  }

  /** Physical addresses of the two entries that translate `v` under directory `dir`. */
  function PdeAt(dir: Word, v: Word): int {
    dir + 4 * PdeIdx(v)
  }

  function PteAt(m: Mem, dir: Word, v: Word): int {
    Frame(m(PdeAt(dir, v))) + 4 * PteIdx(v)
  }

  predicate TablePresent(m: Mem, dir: Word, v: Word) {
    Present(m(PdeAt(dir, v)))
  }

  /** What the processor makes of a virtual address. */
  function Walk(m: Mem, dir: Word, v: Word): Option<Word> {
    if TablePresent(m, dir, v) && Present(m(PteAt(m, dir, v)))
    then Some(Frame(m(PteAt(m, dir, v))) + v % 4096)
    else None
  }

  /** The R/W and U/S flags of an entry. */
  predicate Writable(w: Word) {
    w / 2 % 2 == 1
  }

  predicate UserMode(w: Word) {
    w / 4 % 2 == 1
  }

  predicate Open(w: Word) {
    UserMode(w) && Writable(w)
  }

  /** Where an address leads, and what both entries on the way allow (section 4.6): use from user mode, and writing. */
  datatype Mapping = Mapping(at: Word, user: bool, write: bool)

  function Reach(m: Mem, dir: Word, v: Word): Option<Mapping> {
    if Walk(m, dir, v).None? then None
    else
      var pde, pte := m(PdeAt(dir, v)), m(PteAt(m, dir, v));
      Some(Mapping(Walk(m, dir, v).value, UserMode(pde) && UserMode(pte), Writable(pde) && Writable(pte)))
  }

  // ---------------------------------------------------------------- address arithmetic of mem.c

  /** pte_addr */
  function PteAddr(v: Word): Word {
    0xffc00000 + (v - v % 0x400000) / 1024 + PteIdx(v) * 4
  }

  /** pde_addr */
  function PdeAddr(v: Word): Word {
    0xfffff000 + PdeIdx(v) * 4
  }

  /** Changing the low bits of a word, inside a block of 8, does not change its frame. */
  lemma SameFrame(w: Word, e: Word)
    requires e / 8 == w / 8
    ensures Frame(e) == Frame(w)
  {
    assert w / 4096 == w / 8 / 512 && e / 4096 == e / 8 / 512;
  }

  /** `w | PG_US_U | PG_RW_W | PG_P_1` */
  function Entry(w: Word): (e: Word)
    ensures Present(e) && Writable(e) && UserMode(e) && Frame(e) == Frame(w)
    ensures e / 8 == w / 8
  {
    SameFrame(w, 8 * (w / 8) + 7);
    8 * (w / 8) + 7
  }

  /** `w & ~PG_P_1` */
  function Absent(w: Word): (e: Word)
    ensures !Present(e) && Frame(e) == Frame(w)
    ensures e / 2 == w / 2
  {
    SameFrame(w, w - w % 2);
    w - w % 2
  }

  /** Entry 1023 of the directory points to the directory itself. */
  predicate SelfMapped(m: Mem, dir: Word) {
    dir % 4096 == 0 && Present(m(dir + 4092)) && Frame(m(dir + 4092)) == dir
  }

  /** An address is made of two indices and an offset, in one way. */
  lemma AddressParts(p: nat, t: nat, o: nat)
    requires p < 1024 && t < 1024 && o < 4096
    ensures var v := 0x400000 * p + 0x1000 * t + o;
            v < 0x1_0000_0000 && PdeIdx(v) == p && PteIdx(v) == t && v % 4096 == o
  {
    var v := 0x400000 * p + 0x1000 * t + o;
    assert v / 0x1000 == 1024 * p + t;
  }

  /** The indices that the hardware takes out of the two computed addresses. */
  lemma EntryAddressParts(v: Word)
    ensures PdeIdx(PteAddr(v)) == 1023 && PteIdx(PteAddr(v)) == PdeIdx(v) && PteAddr(v) % 4096 == 4 * PteIdx(v)
    ensures PdeIdx(PdeAddr(v)) == 1023 && PteIdx(PdeAddr(v)) == 1023 && PdeAddr(v) % 4096 == 4 * PdeIdx(v)
  {
    AddressParts(1023, PdeIdx(v), 4 * PteIdx(v));
    AddressParts(1023, 1023, 4 * PdeIdx(v));
  }

  /** Pushed through the hardware walk, pde_addr and pte_addr reach exactly the entries that translate
      `v`; pte_addr is mapped if and only if `v` has a page table. */
  lemma RecursiveMapping(m: Mem, dir: Word, v: Word)
    requires SelfMapped(m, dir)
    ensures Walk(m, dir, PdeAddr(v)) == Some(PdeAt(dir, v))
    ensures Walk(m, dir, PteAddr(v)) == if TablePresent(m, dir, v) then Some(PteAt(m, dir, v)) else None
  {
    EntryAddressParts(v);
    hide PdeIdx, PteIdx, Frame, PteAddr, PdeAddr;
    assert PdeAt(dir, PdeAddr(v)) == dir + 4092 && PdeAt(dir, PteAddr(v)) == dir + 4092;
  }

  /** addr_v2p reads the entry through its virtual address and does not look at the present bit. */
  function AddrV2p(m: Mem, dir: Word, v: Word): Word
    requires Walk(m, dir, PteAddr(v)).Some?
  {
    Frame(m(Walk(m, dir, PteAddr(v)).value)) + v % 4096
  }

  /** For every present page, also inside the self-mapped window, addr_v2p is the hardware's translation. */
  lemma V2pIsWalk(m: Mem, dir: Word, v: Word)
    requires SelfMapped(m, dir) && Walk(m, dir, v).Some?
    ensures Walk(m, dir, PteAddr(v)).Some? && AddrV2p(m, dir, v) == Walk(m, dir, v).value
  {
    RecursiveMapping(m, dir, v);
  }

  /** Present or not, the entry of every address with a page table can be reached, and addr_v2p gives the address that
      it names. */
  lemma V2pReaches(m: Mem, dir: Word, v: Word)
    requires SelfMapped(m, dir)
    ensures Walk(m, dir, PteAddr(v)).Some? <==> TablePresent(m, dir, v)
    ensures TablePresent(m, dir, v) ==>
              Frame(AddrV2p(m, dir, v)) == Frame(m(PteAt(m, dir, v))) && AddrV2p(m, dir, v) % 4096 == v % 4096
    ensures Walk(m, dir, v).Some? ==> TablePresent(m, dir, v) && Walk(m, dir, v) == Some(AddrV2p(m, dir, v))
  {
    hide SelfMapped, PdeIdx, PteIdx, PteAddr, Present;
    RecursiveMapping(m, dir, v);
  }

  // ---------------------------------------------------------------- insert_page_table and remove_page_table

  /** The branch of insert_page_table for an address that has a page table. */
  function SetPte(m: Mem, dir: Word, v: Word, p: Word): Mem {
    Store(m, PteAt(m, dir, v), Entry(p))
  }

  /** The other branch: hook in frame `t` as a page table, zero it, write the entry. */
  function SetPteInNewTable(m: Mem, dir: Word, v: Word, p: Word, t: Word): Mem {
    Store(ZeroFrame(Store(m, PdeAt(dir, v), Entry(t)), t), t + 4 * PteIdx(v), Entry(p))
  }

  /** remove_page_table */
  function ClearPte(m: Mem, dir: Word, v: Word): Mem {
    Store(m, PteAt(m, dir, v), Absent(m(PteAt(m, dir, v))))
  }

  /** A walk depends on two words only. */
  lemma WalkFrame(m: Mem, m': Mem, dir: Word, u: Word)
    requires m'(PdeAt(dir, u)) == m(PdeAt(dir, u))
    requires TablePresent(m, dir, u) ==> m'(PteAt(m, dir, u)) == m(PteAt(m, dir, u))
    ensures Walk(m', dir, u) == Walk(m, dir, u) && Reach(m', dir, u) == Reach(m, dir, u)
  {
  }

  /** Inserting with a page table in place: seen from any directory, an address is translated to the new
      page if it is resolved through the entry that was written, and as before otherwise. The entry itself allows
      everything. */
  lemma SetPteTranslations(m: Mem, dir: Word, v: Word, p: Word, dir': Word, u: Word)
    requires TablePresent(m, dir, v)
    requires PdeAt(dir', u) != PteAt(m, dir, v)
    ensures var pde := m(PdeAt(dir', u));
            Reach(SetPte(m, dir, v, p), dir', u) ==
            if TablePresent(m, dir', u) && PteAt(m, dir', u) == PteAt(m, dir, v)
            then Some(Mapping(Frame(p) + u % 4096, UserMode(pde), Writable(pde))) else Reach(m, dir', u)
  {
    hide PdeIdx, PteIdx, Frame, Entry;
  }

  /** Removing an entry: exactly the addresses that are resolved through it lose their translation. */
  lemma ClearPteTranslations(m: Mem, dir: Word, v: Word, dir': Word, u: Word)
    requires TablePresent(m, dir, v)
    requires PdeAt(dir', u) != PteAt(m, dir, v)
    ensures Reach(ClearPte(m, dir, v), dir', u) ==
            if TablePresent(m, dir', u) && PteAt(m, dir', u) == PteAt(m, dir, v) then None else Reach(m, dir', u)
  {
    hide PdeIdx, PteIdx, Frame, Absent;
  }

  /** Inserting with a fresh page table, in a frame that no directory uses yet: under `dir` the 4 MiB around
      `v`, which had no translation at all, get exactly the page of `v`, open to user mode and to writing; everything
      else that is not resolved through the directory entry itself stays. */
  lemma SetPteInNewTableTranslations(m: Mem, dir: Word, v: Word, p: Word, t: Word, dir': Word, u: Word)
    requires dir % 4096 == 0 && dir' % 4096 == 0 && t % 4096 == 0
    requires !TablePresent(m, dir, v)
    requires t != dir && t != dir'
    requires TablePresent(m, dir', u) ==> Frame(m(PdeAt(dir', u))) != t && PteAt(m, dir', u) != PdeAt(dir, v)
    ensures Reach(SetPteInNewTable(m, dir, v, p, t), dir', u) ==
            if dir' == dir && PdeIdx(u) == PdeIdx(v)
            then if PteIdx(u) == PteIdx(v) then Some(Mapping(Frame(p) + u % 4096, true, true)) else None
            else Reach(m, dir', u)
  {
    hide PdeIdx, PteIdx, Frame, Entry;
    var m' := SetPteInNewTable(m, dir, v, p, t);
    var a, w := PdeAt(dir, v), t + 4 * PteIdx(v);
    assert forall x :: x != a && !(t <= x < t + 4096) ==> m'(x) == m(x);
    DirsApart(dir, t, v);
    DirsApart(dir', t, u);
    assert m'(PdeAt(dir', u)) == if PdeAt(dir', u) == a then Entry(t) else m(PdeAt(dir', u));
    if dir' == dir && PdeIdx(u) == PdeIdx(v) {
      assert PteAt(m', dir, u) == t + 4 * PteIdx(u);
    } else {
      DirsApart(dir', dir, u);
      assert PdeAt(dir', u) != a;
      if TablePresent(m, dir', u) {
        TablesApart(Frame(m(PdeAt(dir', u))), t, PteIdx(u));
      }
      WalkFrame(m, m', dir', u);
    }
  }

  /** The translations are part of this. */
  lemma ReachIsWalk(m: Mem, dir: Word, u: Word)
    ensures Walk(m, dir, u) == if Reach(m, dir, u).None? then None else Some(Reach(m, dir, u).value.at)
  {
    hide Walk;
  }

  lemma TablesApart(f: int, t: int, i: nat)
    requires f % 4096 == 0 && t % 4096 == 0 && f != t && i < 1024
    ensures !(t <= f + 4 * i < t + 4096)
  {
  }

  lemma DirsApart(d: Word, t: Word, v: Word)
    requires d % 4096 == 0 && t % 4096 == 0
    ensures d != t ==> !(t <= PdeAt(d, v) < t + 4096)
    ensures d <= PdeAt(d, v) < d + 4096
  {
    if d != t {
      TablesApart(d, t, PdeIdx(v));
    }
  }

  /** While the new table is zeroed through its virtual address, every word of that page keeps hitting the
      same word of the frame, however much has been zeroed already. */
  lemma ZeroingStaysOnFrame(m: Mem, m': Mem, dir: Word, v: Word, i: nat)
    requires SelfMapped(m, dir) && TablePresent(m, dir, v) && i < 1024
    requires Frame(m(PdeAt(dir, v))) != dir
    requires forall x :: m'(x) == m(x) || Frame(m(PdeAt(dir, v))) <= x < Frame(m(PdeAt(dir, v))) + 4096
    ensures Walk(m', dir, Frame(PteAddr(v)) + 4 * i) == Some(Frame(m(PdeAt(dir, v))) + 4 * i)
  {
    EntryAddressParts(v);
    var a := Frame(PteAddr(v)) + 4 * i;
    assert Frame(PteAddr(v)) == 0x400000 * 1023 + 0x1000 * PdeIdx(v);
    AddressParts(1023, PdeIdx(v), 4 * i);
    hide PdeIdx, PteIdx, Frame, PteAddr;
    TablesApart(dir, Frame(m(PdeAt(dir, v))), 1023);
    TablesApart(dir, Frame(m(PdeAt(dir, v))), PdeIdx(v));
    assert m'(PdeAt(dir, a)) == m(dir + 4092);
    assert m'(PdeAt(dir, v)) == m(PdeAt(dir, v));
  }
}
