/** Re-entrant locks of os/kernel/sync.c on the spinlocks of os/kernel/spinlock.c, on one processor. */
module Locks {
  import opened Words

  type Tid = nat

  /** struct lock with its spinlock; no holder is the null pointer. */
  datatype Lock = Lock(locked: Word, holder: Option<Tid>, number: Word)

  /** All locks, and whether interrupts are enabled. */
  datatype State = State(locks: map<nat, Lock>, intr: bool)

  const FREE := Lock(0, None, 0)

  /** lock_acquire by thread `t`. The spinlock is not waited for: it is a panic to find it taken. */
  function Acquire(s: State, l: nat, t: Tid): Outcome<State> {
    if l !in s.locks then Halt
    else
      var k := s.locks[l];
      if k.holder != Some(t) then
        if k.locked != 0 || k.number != 0 then Halt
        else Ok(State(s.locks[l := Lock(1, Some(t), 1)], false))
      else Ok(s.(locks := s.locks[l := k.(number := (k.number + 1) % 0x1_0000_0000)]))
  }

  /** lock_release by thread `t`; the last release enables interrupts. */
  function Release(s: State, l: nat, t: Tid): Outcome<State> {
    if l !in s.locks || s.locks[l].holder != Some(t) then Halt
    else
      var k := s.locks[l];
      if k.number > 1 then Ok(s.(locks := s.locks[l := k.(number := k.number - 1)]))
      else if k.number != 1 || k.locked == 0 then Halt
      else Ok(State(s.locks[l := FREE], true))
  }

  // ---------------------------------------------------------------- the invariant

  predicate LockOk(k: Lock) {
    if k.holder.Some? then k.locked == 1 && k.number >= 1 else k == FREE
  }

  ghost predicate Inv(s: State) {
    forall l :: l in s.locks ==> LockOk(s.locks[l])
  }

  /** How often thread `t` holds lock `l`. */
  function Held(s: State, l: nat, t: Tid): (n: nat)
    ensures n < 0x1_0000_0000
  {
    if l in s.locks && s.locks[l].holder == Some(t) then s.locks[l].number else 0
  }

  /** lock_acquire fails exactly when another thread holds the lock; otherwise the caller holds it once more, nobody
      else's holdings change, and interrupts are off unless the caller held it with interrupts on. After 2^32 - 1
      nested calls the counter wraps, and only then is the invariant lost. */
  lemma AcquireExact(s: State, l: nat, t: Tid)
    requires Inv(s) && l in s.locks
    ensures Acquire(s, l, t).Halt? <==> exists u: Tid :: u != t && Held(s, l, u) > 0
    ensures Acquire(s, l, t).Ok? ==>
              var s' := Acquire(s, l, t).value;
              && (Inv(s') <==> Held(s, l, t) != 0xffff_ffff)
              && s'.intr == (s.intr && Held(s, l, t) > 0)
              && Held(s', l, t) == (Held(s, l, t) + 1) % 0x1_0000_0000
              && (forall m: nat, u: Tid :: m != l || u != t ==> Held(s', m, u) == Held(s, m, u))
  {
    assert LockOk(s.locks[l]);
    if s.locks[l].holder.Some? {
      assert Held(s, l, s.locks[l].holder.value) == s.locks[l].number;
    }
    if Acquire(s, l, t).Ok? {
      var s' := Acquire(s, l, t).value;
      assert LockOk(s'.locks[l]) <==> Held(s, l, t) != 0xffff_ffff;
    }
  }

  /** lock_release fails exactly when the caller does not hold the lock; otherwise it undoes one lock_acquire, and the
      last one enables interrupts. */
  lemma ReleaseExact(s: State, l: nat, t: Tid)
    requires Inv(s) && l in s.locks
    ensures Release(s, l, t).Ok? <==> Held(s, l, t) > 0
    ensures Release(s, l, t).Ok? ==>
              var s' := Release(s, l, t).value;
              && Inv(s') && Held(s', l, t) == Held(s, l, t) - 1
              && s'.intr == (s.intr || Held(s, l, t) == 1)
              && (forall m: nat, u: Tid :: m != l || u != t ==> Held(s', m, u) == Held(s, m, u))
  {
    assert LockOk(s.locks[l]);
  }

  /** A release right after an acquire gives back the lock as it was. */
  lemma AcquireRelease(s: State, l: nat, t: Tid)
    requires Inv(s) && Acquire(s, l, t).Ok? && Held(s, l, t) != 0xffff_ffff
    ensures Release(Acquire(s, l, t).value, l, t).Ok?
    ensures Release(Acquire(s, l, t).value, l, t).value.locks == s.locks
  {
    assert LockOk(s.locks[l]);
    assert s.locks[l := s.locks[l]] == s.locks;
  }

  // ---------------------------------------------------------------- interrupts

  ghost predicate SomeHeld(s: State) {
    exists l :: l in s.locks && s.locks[l].holder.Some?
  }

  ghost predicate AnotherHeld(s: State, l: nat) {
    exists m :: m in s.locks && m != l && s.locks[m].holder.Some?
  }

  /** While some lock is held, interrupts are off. */
  ghost predicate Masked(s: State) {
    SomeHeld(s) ==> !s.intr
  }

  lemma AcquireMasks(s: State, l: nat, t: Tid)
    requires Inv(s) && Masked(s) && Acquire(s, l, t).Ok?
    ensures Masked(Acquire(s, l, t).value) && !Acquire(s, l, t).value.intr
  {
    if s.locks[l].holder.Some? {
      assert SomeHeld(s);
    }
  }

  /** lock_release by itself: interrupts stay off unless it is the last release of one lock while another is held. */
  lemma ReleaseMasksExactly(s: State, l: nat, t: Tid)
    requires Inv(s) && Masked(s) && Release(s, l, t).Ok?
    ensures Masked(Release(s, l, t).value) <==> !(Held(s, l, t) == 1 && AnotherHeld(s, l))
  {
    var s' := Release(s, l, t).value;
    assert LockOk(s.locks[l]) && SomeHeld(s);
    if s.locks[l].number > 1 {
      assert !s'.intr;
    } else {
      assert s'.intr && s'.locks == s.locks[l := FREE];
      if AnotherHeld(s, l) {
        var m :| m in s.locks && m != l && s.locks[m].holder.Some?;
        assert m in s'.locks && s'.locks[m].holder.Some?;
      }
      if SomeHeld(s') {
        var m :| m in s'.locks && s'.locks[m].holder.Some?;
        assert m in s.locks && m != l && s.locks[m].holder.Some?;
      }
    }
  }

  // ---------------------------------------------------------------- threads

  /** The locks, the running thread, and the interrupt flags of the threads that have left the processor: each has its
      own in `old_status`, or in the flags that iret restores. */
  datatype System = System(s: State, cur: Tid, saved: map<Tid, bool>)

  /** What changes locks or the interrupt flag. Acq and Rel are calls by thread `t`; SetIntr is sti, cli or
      set_intr_status; Switch is the way from the flag of one thread to that of another, through thread_block,
      thread_yield or the timer. */
  datatype Event = Acq(l: nat, t: Tid) | Rel(l: nat, t: Tid) | SetIntr(on: bool) | Switch(to: Tid)

  /** The flag with which a thread goes on. A new thread starts with interrupts off, as schedule left them. */
  function Flag(saved: map<Tid, bool>, t: Tid): bool {
    t in saved && saved[t]
  }

  function Step(y: System, e: Event): Outcome<System> {
    match e
    case Acq(l, t) =>
      var r := Acquire(y.s, l, t);
      if r.Ok? then Ok(y.(s := r.value)) else Halt
    case Rel(l, t) =>
      var r := Release(y.s, l, t);
      if r.Ok? then Ok(y.(s := r.value)) else Halt
    case SetIntr(on) => Ok(y.(s := y.s.(intr := on)))
    case Switch(u) =>
      var saved := y.saved[y.cur := y.s.intr];
      Ok(System(y.s.(intr := Flag(saved, u)), u, saved))
  }

  /** Only the running thread calls, and no lock is taken 2^32 times by its holder. */
  predicate Legal(y: System, e: Event) {
    match e
    case Acq(l, t) => t == y.cur && l in y.s.locks && Held(y.s, l, t) != 0xffff_ffff
    case Rel(l, t) => t == y.cur && l in y.s.locks
    case SetIntr(_) => true
    case Switch(_) => true
  }

  /** `y'` is reached by the events. */
  predicate Run(y: System, es: seq<Event>, y': System)
    decreases |es|
  {
    if es == [] then y' == y
    else Legal(y, es[0]) && Step(y, es[0]).Ok? && Run(Step(y, es[0]).value, es[1..], y')
  }

  function Count(es: seq<Event>, e: Event): nat {
    if es == [] then 0 else (if es[0] == e then 1 else 0) + Count(es[1..], e)
  }

  lemma StepHeld(y: System, e: Event, l: nat, t: Tid)
    requires Inv(y.s) && Legal(y, e) && Step(y, e).Ok?
    ensures var y' := Step(y, e).value;
            && Inv(y'.s)
            && Held(y'.s, l, t)
               == Held(y.s, l, t) + (if e == Acq(l, t) then 1 else 0) - (if e == Rel(l, t) then 1 else 0)
  {
    hide Acquire, Release;
    match e
    case Acq(m, u) => AcquireExact(y.s, m, u);
    case Rel(m, u) => ReleaseExact(y.s, m, u);
    case _ =>
  }

  /** After any run, whatever the threads do and whenever they are switched, a thread holds a lock as often as it has
      acquired it more than released it. */
  lemma {:induction false} RunCounts(y: System, es: seq<Event>, y': System, l: nat, t: Tid)
    requires Inv(y.s) && Run(y, es, y')
    ensures Inv(y'.s) && Held(y'.s, l, t) == Held(y.s, l, t) + Count(es, Acq(l, t)) - Count(es, Rel(l, t))
    decreases |es|
  {
    hide Inv, Held, Step, Legal;
    if es != [] {
      StepHeld(y, es[0], l, t);
      RunCounts(Step(y, es[0]).value, es[1..], y', l, t);
    }
  }

  // ---------------------------------------------------------------- the flag of a thread that is away

  /** No event of the run goes on with thread `t`. */
  predicate Away(es: seq<Event>, t: Tid) {
    forall i :: 0 <= i < |es| ==> es[i] != Switch(t)
  }

  lemma {:induction false} AwayKeeps(y: System, es: seq<Event>, y': System, t: Tid)
    requires Run(y, es, y') && Away(es, t) && y.cur != t
    ensures y'.cur != t && Flag(y'.saved, t) == Flag(y.saved, t)
    decreases |es|
  {
    hide Acquire, Release, Legal;
    if es != [] {
      assert es[0] != Switch(t);
      AwayKeeps(Step(y, es[0]).value, es[1..], y', t);
    }
  }

  /** A thread comes back with the interrupt flag that it had when it left, whatever the others have done in the
      meantime; and a switch changes no lock. */
  lemma FlagComesBack(y: System, u: Tid, es: seq<Event>, y': System)
    requires u != y.cur && Run(Step(y, Switch(u)).value, es, y') && Away(es, y.cur)
    ensures var y2 := Step(y', Switch(y.cur)).value;
            y2.cur == y.cur && y2.s.intr == y.s.intr && y2.s.locks == y'.s.locks
  {
    AwayKeeps(Step(y, Switch(u)).value, es, y', y.cur);
  }

  // ---------------------------------------------------------------- interrupts over runs

  /** The events that enable interrupts although some lock is held. */
  ghost predicate Unmasks(y: System, e: Event) {
    match e
    case Acq(_, _) => false
    case Rel(l, t) => Held(y.s, l, t) == 1 && AnotherHeld(y.s, l)
    case SetIntr(on) => on && SomeHeld(y.s)
    case Switch(u) => Flag(y.saved, u) && u != y.cur && SomeHeld(y.s)
  }

  /** Interrupts stay off while a lock is held, except exactly at a last release that leaves another lock held, and
      when they are switched on, by the running thread or by going on with one that had them on, while a lock is
      held. */
  lemma MaskedExactly(y: System, e: Event)
    requires Inv(y.s) && Masked(y.s) && Legal(y, e) && Step(y, e).Ok?
    ensures Masked(Step(y, e).value.s) <==> !Unmasks(y, e)
  {
    match e
    case Acq(l, t) => AcquireMasks(y.s, l, t);
    case Rel(l, t) => ReleaseMasksExactly(y.s, l, t);
    case _ => assert SomeHeld(Step(y, e).value.s) <==> SomeHeld(y.s);
  }

  /** Interrupts are off while a lock is held, and only the running thread holds locks. */
  ghost predicate Private(y: System) {
    && Masked(y.s)
    && forall l :: l in y.s.locks && y.s.locks[l].holder.Some? ==> y.s.locks[l].holder.value == y.cur
  }

  /** A thread that holds a lock does not block, yield or enable interrupts, and does not release one of two locks. */
  ghost predicate Careful(y: System, e: Event) {
    match e
    case Acq(_, _) => true
    case Rel(l, t) => Held(y.s, l, t) == 1 ==> !AnotherHeld(y.s, l)
    case SetIntr(on) => on ==> !SomeHeld(y.s)
    case Switch(u) => u != y.cur ==> !SomeHeld(y.s)
  }

  /** Careful events, and no others, keep the locks private to the running thread. */
  lemma PrivateExactly(y: System, e: Event)
    requires Inv(y.s) && Private(y) && Legal(y, e) && Step(y, e).Ok?
    ensures Private(Step(y, e).value) <==> Careful(y, e)
  {
    MaskedExactly(y, e);
    var y' := Step(y, e).value;
    match e
    case Acq(l, t) =>
      assert y'.s.locks == y.s.locks[l := y'.s.locks[l]] && y'.s.locks[l].holder == Some(t);
    case Rel(l, t) =>
      assert y'.s.locks == y.s.locks[l := y'.s.locks[l]] && y'.s.locks[l].holder in {None, Some(t)};
    case SetIntr(_) =>
    case Switch(u) =>
      if u != y.cur && SomeHeld(y.s) {
        var l :| l in y.s.locks && y.s.locks[l].holder.Some?;
        assert l in y'.s.locks && y'.s.locks[l].holder.value != u;
      }
  }

  ghost predicate AllCareful(y: System, es: seq<Event>)
    decreases |es|
  {
    es == [] || (Careful(y, es[0]) && Step(y, es[0]).Ok? && AllCareful(Step(y, es[0]).value, es[1..]))
  }

  /** In a run in which no holder blocks, yields or enables interrupts and no lock is released inside of another,
      interrupts are off whenever a lock is held, and therefore lock_acquire never finds a lock taken. */
  lemma {:induction false} RunMasks(y: System, es: seq<Event>, y': System)
    requires Inv(y.s) && Private(y) && Run(y, es, y') && AllCareful(y, es)
    ensures Private(y')
    ensures forall l :: l in y'.s.locks ==> Acquire(y'.s, l, y'.cur).Ok?
    decreases |es|
  {
    hide Masked, Careful, Acquire, Release, Legal;
    if es == [] {
      forall l | l in y.s.locks ensures Acquire(y.s, l, y.cur).Ok? {
        AcquireExact(y.s, l, y.cur);
      }
    } else {
      PrivateExactly(y, es[0]);
      StepHeld(y, es[0], 0, 0);
      RunMasks(Step(y, es[0]).value, es[1..], y');
    }
  }

  const IDLE: Tid := 1

  /** Thread 7 takes two locks and gives back one. */
  lemma UnmaskedExample()
    ensures var y := System(State(map[0 := FREE, 1 := FREE], true), 7, map[]);
            var y' := System(State(map[0 := Lock(1, Some(7), 1), 1 := FREE], true), 7, map[]);
            Inv(y.s) && Private(y) && Run(y, [Acq(0, 7), Acq(1, 7), Rel(1, 7)], y') && !Masked(y'.s)
  {
    var y := System(State(map[0 := FREE, 1 := FREE], true), 7, map[]);
    var y1 := Step(y, Acq(0, 7)).value;
    var y2 := Step(y1, Acq(1, 7)).value;
    var y3 := Step(y2, Rel(1, 7)).value;
    assert y3.s.locks == map[0 := Lock(1, Some(7), 1), 1 := FREE];
    assert 0 in y3.s.locks && y3.s.locks[0].holder.Some?;
    assert Run(y2, [Rel(1, 7)], y3);
    assert Run(y1, [Acq(1, 7), Rel(1, 7)], y3);
    assert Run(y, [Acq(0, 7), Acq(1, 7), Rel(1, 7)], y3);
  }

  /** ide_read takes one lock and sleeps with it in sema_down. The idle thread, which had blocked with interrupts off,
      goes on and executes sti: one lock is held, none inside of another, and interrupts are on. A second reader would
      then find the lock taken, which is a panic. */
  lemma SleepingReader()
    ensures var y := System(State(map[0 := FREE], true), 7, map[IDLE := false]);
            var y' := System(State(map[0 := Lock(1, Some(7), 1)], true), IDLE, map[IDLE := false, 7 := false]);
            && Inv(y.s) && Private(y) && Run(y, [Acq(0, 7), Switch(IDLE), SetIntr(true)], y')
            && !Masked(y'.s)
            && Acquire(y'.s, 0, 8).Halt?
  {
    var y := System(State(map[0 := FREE], true), 7, map[IDLE := false]);
    var y1 := Step(y, Acq(0, 7)).value;
    var y2 := Step(y1, Switch(IDLE)).value;
    var y3 := Step(y2, SetIntr(true)).value;
    assert y3.saved == map[IDLE := false, 7 := false] && y3.s.locks == map[0 := Lock(1, Some(7), 1)];
    assert 0 in y3.s.locks && y3.s.locks[0].holder.Some?;
    assert Run(y2, [SetIntr(true)], y3);
    assert Run(y1, [Switch(IDLE), SetIntr(true)], y3);
    assert Run(y, [Acq(0, 7), Switch(IDLE), SetIntr(true)], y3);
  }

  // ---------------------------------------------------------------- the code

  /** struct lock in memory. */
  class LockCell {
    var locked: Word
    var holder: Option<Tid>
    var number: Word

    /** lock_init */
    constructor ()
      ensures locked == 0 && holder == None && number == 0
    {
      locked, holder, number := 0, None, 0;
    }

    /** xchg(&locked, v), one atomic step. */
    method Xchg(v: Word) returns (was: Word)
      modifies `locked
      ensures locked == v && was == old(locked)
    {
      was := locked;
      locked := v;
    }
  }

  /** The processor with all locks that there are. */
  class Processor {
    const cells: map<nat, LockCell>
    var intr: bool

    ghost predicate Valid() {
      forall l, m :: l in cells && m in cells && l != m ==> cells[l] != cells[m]
    }

    ghost function Cells(): set<LockCell> {
      set l | l in cells :: cells[l]
    }

    ghost function LockAt(l: nat): Lock
      requires l in cells
      reads cells[l]
    {
      Lock(cells[l].locked, cells[l].holder, cells[l].number)
    }

    ghost function View(): State
      reads this, Cells()
    {
      State(map l | l in cells :: LockAt(l), intr)
    }

    constructor (cells: map<nat, LockCell>)
      requires forall l, m :: l in cells && m in cells && l != m ==> cells[l] != cells[m]
      ensures this.cells == cells && intr && Valid()
    {
      this.cells, intr := cells, true;
    }

    /** spinlock_acquire: after the test of `holding` the spin loop ends with its first exchange. */
    method SpinlockAcquire(k: LockCell) returns (ok: bool)
      modifies k`locked, `intr
      ensures !intr && ok == (old(k.locked) == 0)
      ensures k.locked == if ok then 1 else old(k.locked)
    {
      intr := false;
      if k.locked != 0 {
        return false;
      }
      var was: Word := 1;
      while was != 0
        invariant k.locked == (if was == 0 then 1 else 0) && !intr
        decreases was
      {
        was := k.Xchg(1);
      }
      return true;
    }

    method SpinlockRelease(k: LockCell) returns (ok: bool)
      modifies k`locked, `intr
      ensures ok == (old(k.locked) != 0)
      ensures ok ==> k.locked == 0 && intr
    {
      if k.locked == 0 {
        return false;
      }
      var _ := k.Xchg(0);
      intr := true;
      return true;
    }

    /** lock_acquire on one of the locks; the others are not touched. */
    method LockAcquire(l: nat, t: Tid) returns (ok: bool)
      requires Valid() && l in cells
      modifies this, cells[l]
      ensures Acquire(old(View()), l, t) == if ok then Ok(View()) else Halt
    {
      ghost var was := View();
      var k := cells[l];
      if k.holder != Some(t) {
        ok := SpinlockAcquire(k);
        if !ok || k.number != 0 {
          return false;
        }
        k.holder := Some(t);
        k.number := 1;
      } else {
        k.number := (k.number + 1) % 0x1_0000_0000;
      }
      OneChanged(was, l);
      return true;
    }

    /** lock_release */
    method LockRelease(l: nat, t: Tid) returns (ok: bool)
      requires Valid() && l in cells
      modifies this, cells[l]
      ensures Release(old(View()), l, t) == if ok then Ok(View()) else Halt
    {
      ghost var was := View();
      var k := cells[l];
      if k.holder != Some(t) {
        return false;
      }
      if k.number > 1 {
        k.number := k.number - 1;
        OneChanged(was, l);
        return true;
      }
      if k.number != 1 {
        return false;
      }
      k.holder := None;
      k.number := 0;
      ok := SpinlockRelease(k);
      if ok {
        OneChanged(was, l);
      }
    }

    lemma OneChanged(was: State, l: nat)
      requires l in cells && was.locks.Keys == cells.Keys
      requires forall m :: m in cells && m != l ==> was.locks[m] == LockAt(m)
      ensures View() == State(was.locks[l := LockAt(l)], intr)
    {
    }
  }
}
