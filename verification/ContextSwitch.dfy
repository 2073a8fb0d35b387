/** switch_to of os/kernel/switch.S on the registers and the memory, with Thread_create and running_thread of
    os/kernel/thread.c. */
module ContextSwitch {
  import opened Words

  /** The registers that switch_to saves; `eip` is where the thread goes on. */
  datatype Regs = Regs(eip: Word, esp: Word, ebx: Word, ecx: Word, edx: Word, esi: Word, edi: Word, ebp: Word)

  /** The struct thread_context stored at `c`. */
  function Context(m: Mem, c: int): Regs {
    Regs(m(c), m(c + 4), m(c + 8), m(c + 12), m(c + 16), m(c + 20), m(c + 24), m(c + 28))
  }

  /** What a thread that calls switch_to with registers `r` will find when it comes back: its return address in
      `eip`, and a stack without it. */
  function Caller(m: Mem, r: Regs): Regs
    requires r.esp + 4 < 0x1_0000_0000
  {
    r.(eip := m(r.esp), esp := r.esp + 4)
  }

  function StoreContext(m: Mem, c: int, r: Regs): Mem {
    var m1 := Store(Store(m, c, r.eip), c + 4, r.esp);
    var m2 := Store(Store(m1, c + 8, r.ebx), c + 12, r.ecx);
    var m3 := Store(Store(m2, c + 16, r.edx), c + 20, r.esi);
    Store(Store(m3, c + 24, r.edi), c + 28, r.ebp)
  }

  /** switch_to(from, to): memory after the call. The word below the stack of `to` is where `ret` finds its
      return address. */
  function Switched(m: Mem, r: Regs, from: int, to: int): Mem
    requires r.esp + 4 < 0x1_0000_0000
  {
    var m1 := StoreContext(m, from, Caller(m, r));
    Store(m1, Context(m1, to).esp - 4, Context(m1, to).eip)
  }

  /** Each thread has a page: struct thread_struct with its context at the bottom, the kernel stack at the top. */
  const CONTEXT := 8
  const STACK_LOW := 512

  /** struct trapframe, struct thread_parameter and the slot of a return address, below the top of the page. */
  const TRAPFRAME := 76
  const PARAMETER := 8
  const FRAME := TRAPFRAME + PARAMETER + 4

  /** Memory after Thread_create for a thread in page `p`. */
  function Created(m: Mem, p: int, entry: Word, func: Word, arg: Word): Mem
    requires 0 <= p <= 0xffff_e000
  {
    var sp := p + 4096 - FRAME;
    Store(Store(Store(Store(m, sp + 4, func), sp + 8, arg), p + CONTEXT, entry), p + CONTEXT + 4, sp)
  }

  class Machine {
    var eax: Word
    var ebx: Word
    var ecx: Word
    var edx: Word
    var esi: Word
    var edi: Word
    var ebp: Word
    var esp: Word
    var eip: Word
    var mem: Mem

    function R(): Regs
      reads this
    {
      Regs(eip, esp, ebx, ecx, edx, esi, edi, ebp)
    }

    /** The first half of switch_to: pop the return address into `from` and save the registers behind it. */
    method SaveFrom(ghost from: Word)
      requires esp + 8 < 0x1_0000_0000 && mem(esp + 4) == from
      modifies `mem, `eax, `esp
      ensures mem == StoreContext(old(mem), from, Caller(old(mem), old(R())))
      ensures esp == old(esp) + 4
    {
      hide Store;
      eax := mem(esp + 4);
      mem := Store(mem, eax, mem(esp));          // popl 0(%eax)
      esp := esp + 4;
      mem := Store(mem, eax + 4, esp);
      mem := Store(mem, eax + 8, ebx);
      mem := Store(mem, eax + 12, ecx);
      mem := Store(mem, eax + 16, edx);
      mem := Store(mem, eax + 20, esi);
      mem := Store(mem, eax + 24, edi);
      mem := Store(mem, eax + 28, ebp);
    }

    /** The second half: load the registers of `to`, and return to its address. */
    method RestoreTo(ghost to: Word)
      requires esp + 4 < 0x1_0000_0000 && mem(esp + 4) == to && mem(to + 4) >= 4
      modifies this
      ensures R() == Context(old(mem), to)
      ensures mem == Store(old(mem), R().esp - 4, R().eip)
    {
      hide Store;
      eax := mem(esp + 4);
      ebp := mem(eax + 28);
      edi := mem(eax + 24);
      esi := mem(eax + 20);
      edx := mem(eax + 16);
      ecx := mem(eax + 12);
      ebx := mem(eax + 8);
      esp := mem(eax + 4);
      JumpTo(mem(eax));
    }

    /** `pushl` of the return address, and `ret`. */
    method JumpTo(word: Word)
      requires esp >= 4
      modifies `mem, `esp, `eip
      ensures eip == word && esp == old(esp) && mem == Store(old(mem), esp - 4, word)
    {
      esp := esp - 4;
      mem := Store(mem, esp, word);
      eip := mem(esp);
      esp := esp + 4;
    }

    /** Thread_create; `selfKstack` is the field of struct thread_struct that Thread_init has set to the end of
        the page, and comes back as the new stack pointer. */
    method ThreadCreate(p: int, entry: Word, func: Word, arg: Word) returns (selfKstack: int)
      requires 0 <= p <= 0xffff_e000
      modifies `mem
      ensures mem == Created(old(mem), p, entry, func, arg)
      ensures selfKstack == p + 4096 - FRAME
    {
      hide Store;
      var sp := p + 4096;
      sp := sp - TRAPFRAME;
      sp := sp - PARAMETER;
      mem := Store(mem, sp, func);
      mem := Store(mem, sp + 4, arg);
      sp := sp - 4;
      selfKstack := sp;
      mem := Store(mem, p + CONTEXT, entry);
      mem := Store(mem, p + CONTEXT + 4, sp);
    }

    /** switch_to; the two arguments are on the stack, above the return address. */
    method SwitchTo(ghost from: Word, ghost to: Word)
      requires esp + 8 < 0x1_0000_0000 && mem(esp + 4) == from && mem(esp + 8) == to
      requires !(from <= esp + 8 <= from + 28)
      requires Context(StoreContext(mem, from, Caller(mem, R())), to).esp >= 4
      modifies this
      ensures R() == Context(StoreContext(old(mem), from, Caller(old(mem), old(R()))), to)
      ensures mem == Switched(old(mem), old(R()), from, to)
    {
      StoreContextOutside(mem, from, Caller(mem, R()), esp + 8);
      hide StoreContext, Store;
      SaveFrom(from);
      RestoreTo(to);
    }
  }

  lemma StoreContextOutside(m: Mem, c: int, r: Regs, a: int)
    requires !(c <= a <= c + 28)
    ensures StoreContext(m, c, r)(a) == m(a)
  {
  }

  /** What was saved is what is found. */
  lemma StoreContextInside(m: Mem, c: int, r: Regs)
    ensures Context(StoreContext(m, c, r), c) == r
  {
  }

  // ---------------------------------------------------------------- threads

  type Tid = nat

  /** The processor runs `cur`; `saved` keeps, for each other thread, the registers with which it has to go on and
      the memory that it left. */
  datatype Left = Left(regs: Regs, mem: Mem)
  datatype System = System(regs: Regs, mem: Mem, cur: Tid, page: map<Tid, int>, saved: map<Tid, Left>)

  function ContextOf(s: System, t: Tid): int
    requires t in s.page
  {
    s.page[t] + CONTEXT
  }

  /** running_thread: `esp & 0xfffff000` */
  function RunningThread(esp: Word): int {
    esp - esp % 4096
  }

  ghost predicate PagesOk(s: System) {
    && s.cur in s.page && s.page.Keys == s.saved.Keys + {s.cur} && s.cur !in s.saved
    && (forall t :: t in s.page ==> s.page[t] % 4096 == 0 && 4096 <= s.page[t] <= 0xffff_e000)
    && (forall t, u :: t in s.page && u in s.page && t != u ==> s.page[t] != s.page[u])
  }

  /** The words that a suspended thread needs: its context, and its stack from the saved stack pointer on. */
  predicate Protected(s: System, t: Tid, a: int)
    requires t in s.page && t in s.saved
  {
    || ContextOf(s, t) <= a < ContextOf(s, t) + 32
    || s.saved[t].regs.esp <= a < s.page[t] + 4096
  }

  ghost predicate Suspended(s: System, t: Tid)
    requires t in s.page && t in s.saved
  {
    && Context(s.mem, ContextOf(s, t)) == s.saved[t].regs
    && s.page[t] + STACK_LOW + 4 <= s.saved[t].regs.esp < s.page[t] + 4096
    && (forall a :: s.saved[t].regs.esp <= a < s.page[t] + 4096 ==> s.mem(a) == s.saved[t].mem(a))
  }

  ghost predicate Inv(s: System) {
    && PagesOk(s)
    && (forall t :: t in s.saved ==> Suspended(s, t))
    && RunningThread(s.regs.esp) == s.page[s.cur]
  }

  /** `cur` is about to execute switch_to(its own context, that of `t`), on its own stack. */
  ghost predicate AtSwitch(s: System, t: Tid) {
    && t in s.page && s.cur in s.page
    && s.page[s.cur] + STACK_LOW <= s.regs.esp && s.regs.esp + 12 <= s.page[s.cur] + 4096
    && s.page[s.cur] <= 0xffff_e000
    && s.mem(s.regs.esp + 4) == ContextOf(s, s.cur) && s.mem(s.regs.esp + 8) == ContextOf(s, t)
  }

  /** switch_to as a step of the system. */
  function SwitchStep(s: System, t: Tid): System
    requires t in s.page && s.cur in s.page && s.regs.esp + 4 < 0x1_0000_0000
  {
    var m1 := StoreContext(s.mem, ContextOf(s, s.cur), Caller(s.mem, s.regs));
    var left := s.saved[s.cur := Left(Caller(s.mem, s.regs), s.mem)];
    System(Context(m1, ContextOf(s, t)), Switched(s.mem, s.regs, ContextOf(s, s.cur), ContextOf(s, t)), t, s.page,
        left - {t})
  }

  /** The running thread computes: it may change its registers and any memory that no suspended thread needs, and
      stays on its own stack. */
  ghost predicate LocalStep(s: System, s': System) {
    && s' == s.(regs := s'.regs, mem := s'.mem)
    && (forall t, a :: t in s.saved && t in s.page && Protected(s, t, a) ==> s'.mem(a) == s.mem(a))
    && s.cur in s.page && RunningThread(s'.regs.esp) == s.page[s.cur]
  }

  /** Thread_create for a new thread in a zeroed page `p`; `entry` is the address of kernel_thread_entry. */
  function CreateStep(s: System, t: Tid, p: int, entry: Word, func: Word, arg: Word): System
    requires 0 <= p <= 0xffff_e000
  {
    var m1 := Created(s.mem, p, entry, func, arg);
    s.(mem := m1, page := s.page[t := p], saved := s.saved[t := Left(Context(m1, p + CONTEXT), m1)])
  }

  ghost predicate MayCreate(s: System, t: Tid, p: int) {
    && t !in s.page && p % 4096 == 0 && 4096 <= p <= 0xffff_e000
    && (forall u :: u in s.page ==> s.page[u] != p)
    && (forall a :: p <= a < p + 4096 ==> s.mem(a) == 0)
  }

  // ---------------------------------------------------------------- what every step keeps

  lemma PagesApart(s: System, t: Tid, u: Tid)
    requires PagesOk(s) && t in s.page && u in s.page && t != u
    ensures s.page[t] + 4096 <= s.page[u] || s.page[u] + 4096 <= s.page[t]
  {
  }

  /** Saving one context leaves the others alone. */
  lemma OtherContext(m: Mem, c: int, r: Regs, d: int)
    requires d + 32 <= c || c + 32 <= d
    ensures Context(StoreContext(m, c, r), d) == Context(m, d)
  {
    StoreContextOutside(m, c, r, d);
    StoreContextOutside(m, c, r, d + 4);
    StoreContextOutside(m, c, r, d + 8);
    StoreContextOutside(m, c, r, d + 12);
    StoreContextOutside(m, c, r, d + 16);
    StoreContextOutside(m, c, r, d + 20);
    StoreContextOutside(m, c, r, d + 24);
    StoreContextOutside(m, c, r, d + 28);
    hide StoreContext;
  }

  /** The registers after switch_to: those saved for `t`, or the caller's own when it switches to itself. */
  lemma SwitchRegs(s: System, t: Tid)
    requires Inv(s) && AtSwitch(s, t)
    ensures SwitchStep(s, t).regs == if t == s.cur then Caller(s.mem, s.regs) else s.saved[t].regs
    ensures s.page[t] + STACK_LOW + 4 <= SwitchStep(s, t).regs.esp < s.page[t] + 4096
  {
    hide StoreContext, Context;
    StoreContextInside(s.mem, ContextOf(s, s.cur), Caller(s.mem, s.regs));
    if t != s.cur {
      PagesApart(s, t, s.cur);
      OtherContext(s.mem, ContextOf(s, s.cur), Caller(s.mem, s.regs), ContextOf(s, t));
      assert Suspended(s, t);
    }
  }

  lemma SwitchShape(s: System, t: Tid)
    requires Inv(s) && AtSwitch(s, t)
    ensures var s' := SwitchStep(s, t);
            && s'.page == s.page && s'.cur == t
            && s'.saved == s.saved[s.cur := Left(Caller(s.mem, s.regs), s.mem)] - {t}
  {
    hide StoreContext, Context, Switched;
  }

  /** Outside of the caller's context and of the slot below the new stack, memory stays; the context is the
      caller's. */
  lemma SwitchMemory(s: System, t: Tid)
    requires Inv(s) && AtSwitch(s, t)
    ensures forall a :: !(ContextOf(s, s.cur) <= a < ContextOf(s, s.cur) + 32) && a != SwitchStep(s, t).regs.esp - 4 ==>
              SwitchStep(s, t).mem(a) == s.mem(a)
    ensures forall a :: a != SwitchStep(s, t).regs.esp - 4 ==>
              SwitchStep(s, t).mem(a) == StoreContext(s.mem, ContextOf(s, s.cur), Caller(s.mem, s.regs))(a)
    ensures SwitchStep(s, t).mem(SwitchStep(s, t).regs.esp - 4) == SwitchStep(s, t).regs.eip
  {
    var c, r := ContextOf(s, s.cur), Caller(s.mem, s.regs);
    var s' := SwitchStep(s, t);
    hide StoreContext, Context;
    assert forall a :: a != s'.regs.esp - 4 ==> s'.mem(a) == StoreContext(s.mem, c, r)(a);
    forall a | !(c <= a < c + 32) && a != s'.regs.esp - 4 ensures s'.mem(a) == s.mem(a) {
      StoreContextOutside(s.mem, c, r, a);
    }
  }

  lemma ContextFrame(m: Mem, m': Mem, c: int)
    requires forall a :: c <= a < c + 32 ==> m'(a) == m(a)
    ensures Context(m', c) == Context(m, c)
  {
  }

  /** A suspended thread only depends on its own page. */
  lemma SuspendedFrame(s: System, s': System, u: Tid)
    requires u in s.saved && u in s.page && Suspended(s, u)
    requires u in s'.saved && u in s'.page && s'.saved[u] == s.saved[u] && s'.page[u] == s.page[u]
    requires forall a :: Protected(s, u, a) ==> s'.mem(a) == s.mem(a)
    ensures Suspended(s', u)
  {
    ContextFrame(s.mem, s'.mem, ContextOf(s, u));
    hide Context;
  }

  lemma OthersStaySuspended(s: System, t: Tid, u: Tid)
    requires Inv(s) && AtSwitch(s, t) && u in s.saved && u != t
    ensures u in SwitchStep(s, t).saved && u in SwitchStep(s, t).page && Suspended(SwitchStep(s, t), u)
  {
    hide SwitchStep, Context, StoreContext, Caller;
    SwitchShape(s, t);
    SwitchRegs(s, t);
    SwitchMemory(s, t);
    var s' := SwitchStep(s, t);
    assert Suspended(s, u);
    PagesApart(s, u, s.cur);
    PagesApart(s, u, t);
    forall a | Protected(s, u, a) ensures s'.mem(a) == s.mem(a) {
      assert s.page[u] <= a < s.page[u] + 4096;
    }
    SuspendedFrame(s, s', u);
  }

  lemma CallerIsSuspended(s: System, t: Tid)
    requires Inv(s) && AtSwitch(s, t) && t != s.cur
    ensures var s' := SwitchStep(s, t);
            && s.cur in s'.saved && s.cur in s'.page && Suspended(s', s.cur)
            && s'.saved[s.cur] == Left(Caller(s.mem, s.regs), s.mem)
  {
    hide SwitchStep, StoreContext, Context;
    SwitchShape(s, t);
    SwitchRegs(s, t);
    PagesApart(s, s.cur, t);
    CallerContext(s, t);
    SwitchMemory(s, t);
    assert ContextOf(s, s.cur) + 32 <= s.regs.esp;
  }

  lemma CallerContext(s: System, t: Tid)
    requires Inv(s) && AtSwitch(s, t) && t != s.cur
    ensures Context(SwitchStep(s, t).mem, ContextOf(s, s.cur)) == Caller(s.mem, s.regs)
  {
    var m, c, r := SwitchStep(s, t).mem, ContextOf(s, s.cur), Caller(s.mem, s.regs);
    hide SwitchStep, StoreContext, Context, Caller, Suspended;
    SwitchRegs(s, t);
    SwitchMemory(s, t);
    PagesApart(s, s.cur, t);
    StoreContextInside(s.mem, c, r);
    ContextFrame(StoreContext(s.mem, c, r), m, c);
  }

  lemma OnOwnPage(p: int, esp: Word)
    requires p % 4096 == 0 && p <= esp < p + 4096
    ensures RunningThread(esp) == p
  {
  }

  /** switch_to keeps the invariant: the new thread has its registers, runs on its own page, and everybody else,
      the caller included, is suspended with what it left. */
  lemma SwitchKeeps(s: System, t: Tid)
    requires Inv(s) && AtSwitch(s, t)
    ensures Inv(SwitchStep(s, t))
  {
    hide SwitchStep, Suspended, RunningThread, Caller;
    var s' := SwitchStep(s, t);
    SwitchShape(s, t);
    SwitchRegs(s, t);
    OnOwnPage(s.page[t], s'.regs.esp);
    forall u | u in s'.saved ensures u in s'.page && Suspended(s', u) {
      if u == s.cur {
        CallerIsSuspended(s, t);
      } else {
        OthersStaySuspended(s, t, u);
      }
    }
    assert s'.saved.Keys == s.saved.Keys + {s.cur} - {t};
  }

  /** The thread that is switched to goes on at its own return address, with its own registers, and with its stack
      as it left it. */
  lemma Resumes(s: System, t: Tid)
    requires Inv(s) && AtSwitch(s, t) && t != s.cur
    ensures var s' := SwitchStep(s, t);
            && s'.cur == t && s'.regs == s.saved[t].regs && s'.page == s.page
            && RunningThread(s'.regs.esp) == s.page[t]
            && forall a :: s'.regs.esp <= a < s.page[t] + 4096 ==> s'.mem(a) == s.saved[t].mem(a)
  {
    hide SwitchStep, RunningThread, Caller, Context, StoreContext;
    var s' := SwitchStep(s, t);
    SwitchShape(s, t);
    SwitchRegs(s, t);
    SwitchMemory(s, t);
    OnOwnPage(s.page[t], s'.regs.esp);
    PagesApart(s, s.cur, t);
    assert Suspended(s, t);
  }

  /** A thread that switches to itself just returns from switch_to, its stack unchanged. */
  lemma SelfSwitch(s: System)
    requires Inv(s) && AtSwitch(s, s.cur)
    ensures var s' := SwitchStep(s, s.cur);
            && s'.cur == s.cur && s'.regs == Caller(s.mem, s.regs) && s'.saved == s.saved
            && forall a :: s'.regs.esp <= a < s.page[s.cur] + 4096 ==> s'.mem(a) == s.mem(a)
  {
    hide SwitchStep, RunningThread, Context, StoreContext, Suspended;
    SwitchShape(s, s.cur);
    SwitchRegs(s, s.cur);
    SwitchMemory(s, s.cur);
    assert SwitchStep(s, s.cur).saved == s.saved;
  }

  lemma LocalKeeps(s: System, s': System)
    requires Inv(s) && LocalStep(s, s')
    ensures Inv(s')
  {
    hide Suspended, RunningThread, Protected;
    forall t | t in s'.saved ensures t in s'.page && Suspended(s', t) {
      assert t in s.page && Suspended(s, t);
      SuspendedFrame(s, s', t);
    }
  }

  /** What Thread_create leaves: the thread will enter `entry` with `func` and `arg` in the slots of a first and a
      second argument, above the slot of a return address. */
  lemma CreateLeaves(s: System, t: Tid, p: int, entry: Word, func: Word, arg: Word)
    requires MayCreate(s, t, p)
    ensures var left := CreateStep(s, t, p, entry, func, arg).saved[t];
            && left.regs == Regs(entry, p + 4096 - FRAME, 0, 0, 0, 0, 0, 0)
            && left.mem(left.regs.esp + 4) == func && left.mem(left.regs.esp + 8) == arg
            && left.mem == CreateStep(s, t, p, entry, func, arg).mem
    ensures forall a :: !(p <= a < p + 4096) ==> CreateStep(s, t, p, entry, func, arg).mem(a) == s.mem(a)
  {
  }

  lemma CreateShape(s: System, t: Tid, p: int, entry: Word, func: Word, arg: Word)
    requires MayCreate(s, t, p)
    ensures var s' := CreateStep(s, t, p, entry, func, arg);
            && s'.page == s.page[t := p] && s'.cur == s.cur && s'.regs == s.regs
            && s'.saved == s.saved[t := Left(Context(s'.mem, p + CONTEXT), s'.mem)]
  {
    hide Context, Store;
  }

  lemma CreateKeeps(s: System, t: Tid, p: int, entry: Word, func: Word, arg: Word)
    requires Inv(s) && MayCreate(s, t, p)
    ensures Inv(CreateStep(s, t, p, entry, func, arg))
  {
    hide CreateStep, Context;
    var s' := CreateStep(s, t, p, entry, func, arg);
    CreateLeaves(s, t, p, entry, func, arg);
    CreateShape(s, t, p, entry, func, arg);
    CreatePages(s, s', t, p);
    NewIsSuspended(s', t, p);
    hide RunningThread, Suspended;
    forall u | u in s'.saved && u != t ensures u in s'.page && Suspended(s', u) {
      assert u in s.saved && u in s.page && Suspended(s, u) && s.page[u] != p;
      OtherPageStays(s, s', u, p);
    }
  }

  lemma CreatePages(s: System, s': System, t: Tid, p: int)
    requires PagesOk(s) && MayCreate(s, t, p)
    requires s'.page == s.page[t := p] && s'.cur == s.cur && s'.saved.Keys == s.saved.Keys + {t}
    ensures PagesOk(s')
  {
  }

  lemma NewIsSuspended(s': System, t: Tid, p: int)
    requires t in s'.saved && t in s'.page && s'.page[t] == p
    requires s'.saved[t] == Left(Context(s'.mem, p + CONTEXT), s'.mem)
    requires s'.saved[t].regs.esp == p + 4096 - FRAME
    ensures Suspended(s', t)
  {
    hide Context;
  }

  lemma OtherPageStays(s: System, s': System, u: Tid, p: int)
    requires u in s.saved && u in s.page && Suspended(s, u) && s.page[u] % 4096 == 0 && p % 4096 == 0 && s.page[u] != p
    requires u in s'.saved && u in s'.page && s'.saved[u] == s.saved[u] && s'.page[u] == s.page[u]
    requires forall a :: !(p <= a < p + 4096) ==> s'.mem(a) == s.mem(a)
    ensures Suspended(s', u)
  {
    assert s.page[u] + 4096 <= p || p + 4096 <= s.page[u];
    forall a | Protected(s, u, a) ensures s'.mem(a) == s.mem(a) {
      assert s.page[u] <= a < s.page[u] + 4096;
    }
    hide Suspended, Protected;
    SuspendedFrame(s, s', u);
  }

  /** The main thread alone, running on its page, is a state to start from; nobody is suspended yet. */
  lemma MainThread(regs: Regs, mem: Mem, t: Tid, p: int)
    requires p % 4096 == 0 && 4096 <= p <= 0xffff_e000 && p <= regs.esp < p + 4096
    ensures Inv(System(regs, mem, t, map[t := p], map[]))
  {
    OnOwnPage(p, regs.esp);
    hide RunningThread;
  }

  // ---------------------------------------------------------------- runs

  datatype Event = Local(next: System) | Switch(to: Tid) | Create(t: Tid, p: int, entry: Word, func: Word, arg: Word)

  ghost predicate Legal(s: System, e: Event) {
    match e
    case Local(next) => LocalStep(s, next)
    case Switch(t) => AtSwitch(s, t)
    case Create(t, p, entry, func, arg) => MayCreate(s, t, p)
  }

  ghost function Step(s: System, e: Event): System
    requires Legal(s, e)
  {
    match e
    case Local(next) => next
    case Switch(t) => SwitchStep(s, t)
    case Create(t, p, entry, func, arg) => CreateStep(s, t, p, entry, func, arg)
  }

  ghost predicate LegalRun(s: System, es: seq<Event>)
    decreases |es|
  {
    es == [] || (Legal(s, es[0]) && LegalRun(Step(s, es[0]), es[1..]))
  }

  ghost function Run(s: System, es: seq<Event>): System
    requires LegalRun(s, es)
    decreases |es|
  {
    if es == [] then s else Run(Step(s, es[0]), es[1..])
  }

  lemma StepKeeps(s: System, e: Event)
    requires Inv(s) && Legal(s, e)
    ensures Inv(Step(s, e))
  {
    hide Inv, LocalStep, AtSwitch, MayCreate, SwitchStep, CreateStep;
    match e
    case Local(next) => LocalKeeps(s, next);
    case Switch(t) => SwitchKeeps(s, t);
    case Create(t, p, entry, func, arg) => CreateKeeps(s, t, p, entry, func, arg);
  }

  /** As long as nobody switches to a suspended thread, what it left is kept. */
  lemma StepKeepsLeft(s: System, e: Event, u: Tid)
    requires Inv(s) && Legal(s, e) && u in s.saved && e != Switch(u)
    ensures u in Step(s, e).saved && u in Step(s, e).page && u in s.page
    ensures Step(s, e).saved[u] == s.saved[u] && Step(s, e).page[u] == s.page[u]
  {
    hide SwitchStep, CreateStep, Suspended, RunningThread, Context, Caller, Protected;
    match e
    case Local(next) =>
    case Switch(t) => SwitchShape(s, t);
    case Create(t, p, entry, func, arg) => CreateShape(s, t, p, entry, func, arg);
  }

  lemma {:induction false} RunKeeps(s: System, es: seq<Event>, u: Tid)
    requires Inv(s) && LegalRun(s, es)
    ensures Inv(Run(s, es))
    ensures u in s.saved && Switch(u) !in es ==>
              u in Run(s, es).saved && Run(s, es).saved[u] == s.saved[u] && Run(s, es).page[u] == s.page[u]
    decreases |es|
  {
    if es != [] {
      hide Inv, Legal, Step;
      StepKeeps(s, es[0]);
      if u in s.saved && Switch(u) !in es {
        assert es[0] in es;
        SavedHasPage(s, u);
        StepKeepsLeft(s, es[0], u);
      }
      RunKeeps(Step(s, es[0]), es[1..], u);
    }
  }

  lemma SavedHasPage(s: System, u: Tid)
    requires Inv(s) && u in s.saved
    ensures u in s.page
  {
  }

  /** The round trip: a thread calls switch_to, anything happens, and when somebody switches back to it, it returns
      from its call with all registers that switch_to promises, on its own page, and finds its stack as it was. */
  lemma RoundTrip(s: System, t: Tid, es: seq<Event>)
    requires Inv(s) && AtSwitch(s, t) && t != s.cur
    requires LegalRun(SwitchStep(s, t), es) && Switch(s.cur) !in es
    requires AtSwitch(Run(SwitchStep(s, t), es), s.cur)
    ensures var back := SwitchStep(Run(SwitchStep(s, t), es), s.cur);
            && back.cur == s.cur && back.regs == Caller(s.mem, s.regs) && back.page[s.cur] == s.page[s.cur]
            && RunningThread(back.regs.esp) == s.page[s.cur]
            && forall a :: back.regs.esp <= a < s.page[s.cur] + 4096 ==> back.mem(a) == s.mem(a)
  {
    SwitchKeeps(s, t);
    SwitchShape(s, t);
    CallerIsSuspended(s, t);
    var s1 := SwitchStep(s, t);
    assert s1.page == s.page && s.cur in s1.saved;
    var s2 := Run(s1, es);
    hide SwitchStep, AtSwitch, LegalRun, Run, Suspended;
    RunKeeps(s1, es, s.cur);
    assert s.cur != s2.cur;
    Resumes(s2, s.cur);
  }

  /** The first switch to a thread built by Thread_create enters kernel_thread_entry as if it had been called with
      (func, arg), and running_thread() is that thread. */
  lemma FirstEntry(s: System, t: Tid, p: int, entry: Word, func: Word, arg: Word, es: seq<Event>)
    requires Inv(s) && MayCreate(s, t, p)
    requires LegalRun(CreateStep(s, t, p, entry, func, arg), es) && Switch(t) !in es
    requires AtSwitch(Run(CreateStep(s, t, p, entry, func, arg), es), t)
    ensures var s' := SwitchStep(Run(CreateStep(s, t, p, entry, func, arg), es), t);
            && s'.cur == t && s'.regs.eip == entry && RunningThread(s'.regs.esp) == p
            && s'.mem(s'.regs.esp + 4) == func && s'.mem(s'.regs.esp + 8) == arg
  {
    CreateKeeps(s, t, p, entry, func, arg);
    CreateLeaves(s, t, p, entry, func, arg);
    var s1 := CreateStep(s, t, p, entry, func, arg);
    assert s1.page[t] == p && t in s1.saved;
    var s2 := Run(s1, es);
    hide SwitchStep, CreateStep, AtSwitch, LegalRun, Run, Suspended;
    RunKeeps(s1, es, t);
    assert t != s2.cur;
    Resumes(s2, t);
  }
}
