/** The code of os/kernel/thread.c, os/kernel/sync.c and os/kernel/clock.c on thread structures and on linked tags in
    memory, proved against module Scheduler. Each method is a stretch of code between two switches of threads; one that
    returns `false` has failed an assertion. */
module SchedulerCode {
  import opened Words
  import opened Lists
  import opened Scheduler
  import opened SchedulerInvariant
  import opened TaggedLists
  import opened ThreadLists

  class Kernel {
    var cur: Tid                        // running_thread()
    const idle: Tid                     // idle_thread
    var threads: map<Tid, Thread>
    var tag: map<Tid, Entry>            // &thread->general_tag
    var owner: map<Entry, Tid>          // to_struct(tag, struct thread_struct, general_tag)
    const ready: List                   // thread_ready_list
    var semas: map<nat, SemaRec>
    ghost var downing: map<Tid, nat>
    ghost var w: World

    ghost function K(): Links
      reads this
    {
      Links(w, ready, semas, tag, owner)
    }

    /** Every tag is on at most one of the lists, which are well linked and share no node. */
    ghost predicate Valid()
      reads this, AllNodes(w)
    {
      Shape(K()) && Separate(w) && tag.Keys == threads.Keys
    }

    ghost function S(): State
      requires Shape(K())
      reads this
    {
      State(cur, idle, threads, ReadyOf(K()), SemasOf(K()), downing)
    }

    /** list_init and Make_Main_Thread, with the ready list and the tag of the main thread; the idle thread is started
        afterwards. */
    constructor (main: Tid, idleThread: Tid, ready: List, e: Entry)
      requires ready.header != ready.tailer && e != ready.header && e != ready.tailer
      modifies ready.header, ready.tailer
      ensures Valid() && this.ready == ready && owner == map[e := main] && semas == map[]
      ensures S() == State(main, idleThread, map[main := Thread(Running, 31, 31, 0)], [], map[], map[])
    {
      hide Shape, Separate, ReadyOf, SemasOf, TagsOk, Elems, OnNoList;
      NoLists();
      OneTag(main, e);
      ghost var w0 := Init(ready, map[]);
      EmptyReady(Links(w0, ready, map[], map[main := e], map[e := main]));
      cur, idle, this.ready := main, idleThread, ready;
      threads, tag, owner := map[main := Thread(Running, 31, 31, 0)], map[main := e], map[e := main];
      semas, downing, w := map[], map[], w0;
      new;
      Elsewhere(w0);
      assert Separate(w0);
    }

    /** Links are not part of this object. */
    lemma Elsewhere(w: World)
      ensures forall e: object :: e in AllNodes(w) ==> e != this
    {
    }

    // -------------------------------------------------------------- os/kernel/thread.c

    /** thread_unblock. Its assertions look at the ready list only. */
    method ThreadUnblock(t: Tid) returns (ok: bool)
      requires Valid() && t in threads && (t !in ReadyOf(K()) ==> Off(ReadyOf(K()), SemasOf(K()), t))
      modifies `w, `threads, Nodes(owner, ready, semas)
      ensures ok ==> Valid()
      ensures Unblock(old(S()), t) == if ok then Ok(S()) else Halt
    {
      hide Shape, Separate, Off, ReadyOf, SemasOf, Nodes, ThreadsOn;
      ghost var k := K();
      ReadyList(k);
      if !Sleeping(threads[t].status) {
        return false;
      }
      var found := FindTag(ready, tag[t], k, t);
      if found {
        return false;
      }
      ghost var w1 := PushReady(ready, tag[t], k, t);
      Elsewhere(w1);
      w, threads := w1, threads[t := threads[t].(status := Ready)];
      return true;
    }

    /** schedule, up to the switch. */
    method DoSchedule() returns (ok: bool)
      requires Valid() && cur in threads && idle in threads
      requires threads[cur].status == Running && cur !in ReadyOf(K()) ==> Off(ReadyOf(K()), SemasOf(K()), cur)
      requires ReadyOf(K()) == [] ==> Off(ReadyOf(K()), SemasOf(K()), idle)
      modifies `w, `threads, `cur, Nodes(owner, ready, semas)
      ensures ok ==> Valid()
      ensures Schedule(old(S())) == if ok then Ok(S()) else Halt
    {
      hide Shape, Separate, Off, ReadyOf, SemasOf, Nodes, ThreadsOn, Dispatch;
      ghost var k := K();
      ReadyList(k);
      if threads[cur].status == Running {
        var found := FindTag(ready, tag[cur], k, cur);
        if found {
          return false;
        }
        ghost var w1 := AppendReady(ready, tag[cur], k, cur);
        Elsewhere(w1);
        w, threads := w1, threads[cur := threads[cur].(ticks := threads[cur].priority, status := Ready)];
      }
      assert Requeue(old(S())) == Ok(S());
      ok := SwitchToNext();
    }

    /** The second half of schedule. */
    method SwitchToNext() returns (ok: bool)
      requires Valid() && cur in threads && idle in threads
      requires ReadyOf(K()) == [] ==> Off(ReadyOf(K()), SemasOf(K()), idle)
      modifies `w, `threads, `cur, Nodes(owner, ready, semas)
      ensures ok ==> Valid()
      ensures Dispatch(old(S())) == if ok then Ok(S()) else Halt
    {
      hide Shape, Separate, Off, ReadyOf, SemasOf, Nodes, ThreadsOn, Unblock;
      ReadyList(K());
      var empty := NoThreads(ready, K());
      if empty {
        UnblockReady(S(), idle);
        ok := ThreadUnblock(idle);
        if !ok {
          return false;
        }
      }
      ok := TakeNext();
    }

    /** list_pop, and the switch to the thread. */
    method TakeNext() returns (ok: bool)
      requires Valid() && ReadyOf(K()) != []
      modifies `w, `threads, `cur, Nodes(owner, ready, semas)
      ensures ok && Valid()
      ensures Dispatch(old(S())) == Ok(S())
    {
      hide Shape, Separate, ReadyOf, SemasOf, Nodes, Unblock;
      var elem;
      ghost var w1;
      elem, w1 := PopReady(ready, K());
      Elsewhere(w1);
      var next := owner[elem];
      w, threads, cur := w1, threads[next := threads[next].(status := Running)], next;
      return true;
    }

    /** thread_block, up to the switch. */
    method ThreadBlock(st: Status) returns (ok: bool)
      requires Valid() && cur in threads && idle in threads
      requires ReadyOf(K()) == [] ==> Off(ReadyOf(K()), SemasOf(K()), idle)
      modifies `w, `threads, `cur, Nodes(owner, ready, semas)
      ensures ok ==> Valid()
      ensures Block(old(S()), st) == if ok then Ok(S()) else Halt
    {
      hide Shape, Separate, Off, ReadyOf, SemasOf, Nodes, Schedule;
      if !Sleeping(st) {
        return false;
      }
      Elsewhere(w);
      threads := threads[cur := threads[cur].(status := st)];
      ok := DoSchedule();
    }

    /** thread_yield, up to the switch. */
    method ThreadYield() returns (ok: bool)
      requires Valid() && cur in threads && idle in threads
      requires cur !in ReadyOf(K()) ==> Off(ReadyOf(K()), SemasOf(K()), cur)
      modifies `w, `threads, `cur, Nodes(owner, ready, semas)
      ensures ok ==> Valid()
      ensures Yield(old(S())) == if ok then Ok(S()) else Halt
    {
      hide Shape, Separate, Off, ReadyOf, SemasOf, Nodes, ThreadsOn, Schedule;
      ghost var k := K();
      ReadyList(k);
      var found := FindTag(ready, tag[cur], k, cur);
      if found {
        return false;
      }
      ghost var w1 := AppendReady(ready, tag[cur], k, cur);
      Elsewhere(w1);
      w, threads := w1, threads[cur := threads[cur].(status := Ready)];
      ok := DoSchedule();
    }

    /** thread_start: the list_find of its assertion cannot find a link that is new. */
    method ThreadStart(t: Tid, prio: nat)
      requires Valid() && t !in threads
      modifies `w, `threads, `tag, `owner, Nodes(owner, ready, semas)
      ensures Valid()
      ensures Start(old(S()), t, prio) == Ok(S())
    {
      var e := NewEntry();
      assert forall x: Entry :: x in AllNodes(w) ==>
               old(allocated(x)) && x.prev == old(x.prev) && x.next == old(x.next);
      assert Separate(w) && Shape(K()) && e !in owner && e !in AllNodes(w);
      hide ReadyOf, SemasOf, Nodes, Start;
      AddThread(t, prio, e);
    }

    /** The rest of thread_start, with a link that is not in use. */
    method AddThread(t: Tid, prio: nat, e: Entry)
      requires Valid() && t !in threads && e !in owner && e !in AllNodes(w)
      modifies `w, `threads, `tag, `owner, Nodes(owner, ready, semas), e
      ensures Valid()
      ensures Start(old(S()), t, prio) == Ok(S())
    {
      hide Shape, Separate, ReadyOf, SemasOf, Nodes, ThreadsOn, OnNoList, AllNodes;
      ghost var k := K();
      ghost var k1 := k.(tag := tag[t := e], owner := owner[e := t]);
      NewTag(k, k1, t, e);
      ghost var w1 := AppendReady(ready, e, k1, t);
      Elsewhere(w1);
      w, tag, owner, threads := w1, tag[t := e], owner[e := t], threads[t := Thread(Ready, prio, prio, 0)];
    }

    // -------------------------------------------------------------- os/kernel/clock.c

    /** timer_intr_handler */
    method TimerIntrHandler() returns (ok: bool)
      requires Valid() && cur in threads && idle in threads
      requires cur !in ReadyOf(K()) ==> Off(ReadyOf(K()), SemasOf(K()), cur)
      requires ReadyOf(K()) == [] ==> Off(ReadyOf(K()), SemasOf(K()), idle)
      modifies `w, `threads, `cur, Nodes(owner, ready, semas)
      ensures ok ==> Valid()
      ensures Tick(old(S())) == if ok then Ok(S()) else Halt
    {
      hide Shape, Separate, Off, ReadyOf, SemasOf, Nodes, Schedule;
      Elsewhere(w);
      threads := threads[cur := threads[cur].(elapsed := (threads[cur].elapsed + 1) % 0x1_0000_0000)];
      if threads[cur].ticks == 0 {
        ok := DoSchedule();
      } else {
        threads := threads[cur := threads[cur].(ticks := threads[cur].ticks - 1)];
        assert threads == old(threads)[cur := threads[cur]];
        return true;
      }
    }

    // -------------------------------------------------------------- os/kernel/sync.c

    /** sema_init, with a list that is not in use. */
    method SemaInit(m: nat, l: List, value: nat)
      requires Valid() && m !in semas && l.header != l.tailer
      requires l.header !in Nodes(owner, ready, semas) && l.tailer !in Nodes(owner, ready, semas)
      modifies `w, `semas, l.header, l.tailer
      ensures Valid()
      ensures S() == old(S()).(semas := old(S()).semas[m := Sema(value, [], value, 0, 0)])
    {
      ghost var k := K();
      hide Shape, Separate, ReadyOf, SemasOf, Nodes;
      NotInUse(k, l);
      ghost var w1 := Init(l, w);
      var r := SemaRec(value, l, value, 0, 0);
      NewSema(k, k.(w := w1, semas := semas[m := r]), m, l, value);
      Elsewhere(w1);
      w, semas := w1, semas[m := r];
    }

    /** One pass of the loop of sema_down; it ends in a switch, or with the token. */
    method SemaDown(m: nat) returns (ok: bool)
      requires Valid() && cur in threads && idle in threads && m in semas && cur != idle
      requires semas[m].value == 0 ==> cur in SemasOf(K())[m].waiters || Off(ReadyOf(K()), SemasOf(K()), cur)
      requires ReadyOf(K()) == [] ==> Off(ReadyOf(K()), SemasOf(K()), idle)
      modifies `w, `threads, `cur, `semas, `downing, Nodes(owner, ready, semas)
      ensures ok ==> Valid()
      ensures Down(old(S()), m) == if ok then Ok(S()) else Halt
    {
      hide Shape, Separate, Off, ReadyOf, SemasOf, Nodes, ThreadsOn, Block;
      ghost var k := K();
      WaiterList(k, m);
      if semas[m].value == 0 {
        var found := FindTag(semas[m].waiters, tag[cur], k, cur);
        if found {
          return false;
        }
        ghost var w1 := AppendWaiter(semas[m].waiters, tag[cur], k, m, cur);
        StaysOff(ReadyOf(k), SemasOf(k), m, cur, idle);
        Elsewhere(w1);
        w, downing := w1, downing[cur := m];
        ok := ThreadBlock(Blocked);
        return;
      }
      if semas[m].value - 1 != 0 {
        return false;
      }
      var r := semas[m].(value := semas[m].value - 1, downs := semas[m].downs + 1);
      ValueChanged(k, k.(semas := semas[m := r]), m, r);
      Elsewhere(w);
      semas, downing := semas[m := r], downing - {cur};
      return true;
    }

    /** sema_up */
    method SemaUp(m: nat) returns (ok: bool)
      requires Valid() && m in semas
      modifies `w, `threads, `semas, Nodes(owner, ready, semas)
      ensures ok ==> Valid()
      ensures Up(old(S()), m) == if ok then Ok(S()) else Halt
    {
      hide Shape, Separate, Off, ReadyOf, SemasOf, Nodes, ThreadsOn, Unblock;
      ghost var k := K();
      WaiterList(k, m);
      if semas[m].value != 0 {
        return false;
      }
      var empty := NoThreads(semas[m].waiters, k);
      if empty {
        CountUp(m);
        return true;
      }
      var elem;
      ghost var w1;
      elem, w1 := PopWaiter(semas[m].waiters, k, m);
      Elsewhere(w1);
      w := w1;
      ghost var sm := old(S()).semas[m];
      ghost var after := old(S()).semas[m := Sema(1, sm.waiters[1..], sm.init, sm.ups + 1, sm.downs)];
      UnblockOthers(S(), owner[elem], after);
      ok := ThreadUnblock(owner[elem]);
      if ok {
        CountUp(m);
        assert S().semas == after;
      }
    }

    /** The end of sema_up. */
    method CountUp(m: nat)
      requires Valid() && m in semas && semas[m].value == 0
      modifies `semas
      ensures Valid() && m in old(S()).semas
      ensures var sm := old(S()).semas[m];
              S() == old(S()).(semas := old(S()).semas[m := sm.(value := 1, ups := sm.ups + 1)])
    {
      hide Shape, Separate, ReadyOf, SemasOf, Nodes, ThreadsOn;
      WaiterList(K(), m);
      var r := semas[m].(value := semas[m].value + 1, ups := semas[m].ups + 1);
      assert r.value == 1;
      ValueChanged(K(), K().(semas := semas[m := r]), m, r);
      Elsewhere(w);
      semas := semas[m := r];
    }
  }

  /** Whatever happens next is handled by the code on the linked tags as the specification says, from every state that
      a run can reach: no list_find finds what it must not find, no tag is linked twice, and the only assertion that
      can fail is that of a sema_up on a semaphore which has its token. */
  method Handle(kernel: Kernel, e: Event) returns (ok: bool)
    requires kernel.Valid() && Inv(kernel.S()) && Legal(kernel.S(), e)
    modifies kernel, Nodes(kernel.owner, kernel.ready, kernel.semas)
    ensures ok ==> kernel.Valid() && Inv(kernel.S())
    ensures Step(old(kernel.S()), e) == if ok then Ok(kernel.S()) else Halt
    ensures ok <==> !HasToken(old(kernel.S()), e)
  {
    hide Shape, Separate, ReadyOf, SemasOf, Nodes, Off, Inv, Unblock, Block, Yield, Tick, Down, Up, Start;
    ghost var s := kernel.S();
    NobodyTwice(s);
    SemaKeys(kernel.K());
    StepKeeps(s, e);
    match e {
      case TimerTick => ok := kernel.TimerIntrHandler();
      case YieldNow => ok := kernel.ThreadYield();
      case BlockAs(st) => ok := kernel.ThreadBlock(st);
      case Wake(t) => ok := kernel.ThreadUnblock(t);
      case SemaDown(_) => ok := HandleSema(kernel, e);
      case SemaUp(_) => ok := HandleSema(kernel, e);
      case NewThread(t, prio) =>
        kernel.ThreadStart(t, prio);
        ok := true;
    }
  }

  /** A sema_up on a semaphore that has its token. */
  predicate HasToken(s: State, e: Event) {
    e.SemaUp? && e.m in s.semas && s.semas[e.m].value == 1
  }

  /** The events of semaphores. */
  method HandleSema(kernel: Kernel, e: Event) returns (ok: bool)
    requires kernel.Valid() && Inv(kernel.S()) && Legal(kernel.S(), e) && (e.SemaDown? || e.SemaUp?)
    modifies kernel, Nodes(kernel.owner, kernel.ready, kernel.semas)
    ensures ok ==> kernel.Valid() && Inv(kernel.S())
    ensures Step(old(kernel.S()), e) == if ok then Ok(kernel.S()) else Halt
  {
    hide Shape, Separate, ReadyOf, SemasOf, Nodes, Off, Inv, Block, Down, Up;
    NobodyTwice(kernel.S());
    SemaKeys(kernel.K());
    StepKeeps(kernel.S(), e);
    match e {
      case SemaDown(m) => ok := kernel.SemaDown(m);
      case SemaUp(m) => ok := kernel.SemaUp(m);
    }
  }

  lemma SemaKeys(k: Links)
    requires Shape(k)
    ensures SemasOf(k).Keys == k.semas.Keys
    ensures forall m :: m in k.semas ==> SemasOf(k)[m].value == k.semas[m].value
  {
    hide Shape;
  }

  /** In a reachable state the running thread, the idle thread when it is not ready, and every sleeping thread that
      waits for no semaphore, are on no list. */
  lemma NobodyTwice(s: State)
    requires Inv(s)
    ensures s.cur in s.threads && s.idle in s.threads && Off(s.ready, s.semas, s.cur)
    ensures s.idle !in s.ready ==> Off(s.ready, s.semas, s.idle)
    ensures forall t :: t !in s.ready && !OnWaiters(s, t) ==> Off(s.ready, s.semas, t)
  {
    EachTagOnOneList(s, s.cur);
  }

  function AfterInit(main: Tid, idleThread: Tid): State {
    State(main, idleThread, map[main := Thread(Running, 31, 31, 0), idleThread := Thread(Ready, 10, 10, 0)],
          [idleThread], map[], map[])
  }

  /** kthread_init */
  method KthreadInit(main: Tid, idleThread: Tid, ready: List, e: Entry) returns (kernel: Kernel)
    requires main != idleThread && ready.header != ready.tailer && e != ready.header && e != ready.tailer
    modifies ready.header, ready.tailer, e
    ensures fresh(kernel) && kernel.Valid()
    ensures Shape(kernel.K()) && kernel.S() == AfterInit(main, idleThread)
  {
    hide Shape, Separate, ReadyOf, SemasOf;
    kernel := new Kernel(main, idleThread, ready, e);
    kernel.ThreadStart(idleThread, 10);
  }

  lemma NotInUse(k: Links, l: List)
    requires Shape(k)
    requires l.header !in Nodes(k.owner, k.ready, k.semas) && l.tailer !in Nodes(k.owner, k.ready, k.semas)
    ensures l !in k.w && l.header !in AllNodes(k.w) && l.tailer !in AllNodes(k.w)
    ensures l.header !in k.owner && l.tailer !in k.owner
  {
    WorldInNodes(k);
    HeaderLinked(k, l);
  }

  lemma HeaderLinked(k: Links, l: List)
    requires Shape(k)
    ensures l in k.w ==> l.header in AllNodes(k.w)
  {
    if l in k.w {
      assert ChainOk(k.owner, l, k.w[l]);
      assert k.w[l][0] in k.w[l];
    }
  }

  /** A thread that goes to a waiter list does not move the others. */
  lemma StaysOff(ready: seq<Tid>, semas: map<nat, Sema>, m: nat, t: Tid, u: Tid)
    requires m in semas && t != u
    ensures Off(ready, semas, u) ==>
              Off(ready, semas[m := semas[m].(waiters := semas[m].waiters + [t])], u)
  {
  }

  /** thread_unblock does not look at semaphores. */
  lemma UnblockOthers(s: State, t: Tid, semas: map<nat, Sema>)
    ensures Unblock(s.(semas := semas), t) ==
            match Unblock(s, t) case Halt => Halt case Ok(s1) => Ok(s1.(semas := semas))
    ensures Unblock(s, t).Ok? ==> Unblock(s, t).value.semas == s.semas
  {
  }

  lemma UnblockReady(s: State, t: Tid)
    ensures Unblock(s, t).Ok? ==> Unblock(s, t).value.ready == [t] + s.ready
  {
  }
}
