/** What each event does to the queue, the threads and the semaphores, and how long a thread keeps the processor. */
module SchedulerEffects {
  import opened Words
  import opened Scheduler
  import opened SchedulerInvariant
  import opened Fairness

  /** The queue when the next thread is chosen: who yields, is preempted or is new comes last, who is woken comes
      first. */
  function Queue(s: State, e: Event): seq<Tid>
    requires s.cur in s.threads
  {
    match e
    case TimerTick => if s.threads[s.cur].ticks == 0 then s.ready + [s.cur] else s.ready
    case YieldNow => s.ready + [s.cur]
    case BlockAs(_) => s.ready
    case Wake(t) => [t] + s.ready
    case SemaDown(_) => s.ready
    case SemaUp(m) =>
      if m in s.semas && s.semas[m].waiters != [] then [s.semas[m].waiters[0]] + s.ready else s.ready
    case NewThread(t, _) => s.ready + [t]
  }

  /** Who runs, and who waits to run in which order. */
  ghost predicate QueueMoves(s: State, e: Event, s': State)
    requires s.cur in s.threads
  {
    var q := Queue(s, e);
    && s'.idle == s.idle
    && (if !CallsSchedule(s, e) then s'.cur == s.cur && s'.ready == q
        else if q == [] then s'.cur == s.idle && s'.ready == []
        else s'.cur == q[0] && s'.ready == q[1..])
  }

  /** A thread that neither runs nor is ready sleeps as it did, or as the event has put it to sleep. */
  ghost predicate Sleeps(s: State, e: Event, s': State) {
    && s'.threads.Keys == s.threads.Keys + (if e.NewThread? then {e.t} else {})
    && HasStatus(s', s'.cur, Running)
    && (forall t :: t in s'.ready ==> HasStatus(s', t, Ready))
    && (forall t :: t in s.threads && t != s'.cur && t !in s'.ready ==>
          t in s'.threads && s'.threads[t].status ==
          if t != s.cur then s.threads[t].status else if e.BlockAs? then e.st else Blocked)
  }

  /** The quantum: a timer interrupt takes one tick from the running thread, or, at zero, gives it all of them; nothing
      else changes ticks or priorities. A new thread starts with all of them. */
  ghost predicate QuantaMove(s: State, e: Event, s': State) {
    && (forall t :: t in s.threads ==>
          var th := s.threads[t];
          t in s'.threads && s'.threads[t].priority == th.priority &&
          if e.TimerTick? && t == s.cur
          then s'.threads[t].ticks == (if th.ticks == 0 then th.priority else th.ticks - 1)
               && s'.threads[t].elapsed == (th.elapsed + 1) % 0x1_0000_0000
          else s'.threads[t].ticks == th.ticks && s'.threads[t].elapsed == th.elapsed)
    && (e.NewThread? ==>
          e.t in s'.threads && s'.threads[e.t] == Thread(Ready, e.prio, e.prio, 0))
  }

  /** Semaphores: sleepers queue up in order, the first of them is woken, tokens are counted. */
  ghost predicate SemasMove(s: State, e: Event, s': State) {
    match e
    case SemaDown(m) =>
      m in s.semas &&
      var sm := s.semas[m];
      if sm.value == 0 then
        s'.semas == s.semas[m := sm.(waiters := sm.waiters + [s.cur])] && s'.downing == s.downing[s.cur := m]
      else
        s'.semas == s.semas[m := sm.(value := 0, downs := sm.downs + 1)] && s'.downing == s.downing - {s.cur}
    case SemaUp(m) =>
      m in s.semas &&
      var sm := s.semas[m];
      && s'.downing == s.downing
      && s'.semas == s.semas[m := sm.(value := 1, ups := sm.ups + 1,
                                      waiters := if sm.waiters == [] then [] else sm.waiters[1..])]
    case _ => s'.semas == s.semas && s'.downing == s.downing
  }

  ghost predicate Moves(s: State, e: Event, s': State)
    requires s.cur in s.threads
  {
    QueueMoves(s, e, s') && Sleeps(s, e, s') && QuantaMove(s, e, s') && SemasMove(s, e, s')
  }

  // ---------------------------------------------------------------- schedule

  /** What schedule does from a state in which the running thread has been dealt with or is to be requeued. */
  ghost predicate Scheduled(s: State, s': State) {
    var running := HasStatus(s, s.cur, Running);
    var q := if running then s.ready + [s.cur] else s.ready;
    && s'.idle == s.idle && s'.semas == s.semas && s'.downing == s.downing
    && (if q == [] then s'.cur == s.idle && s'.ready == [] else s'.cur == q[0] && s'.ready == q[1..])
    && s'.threads.Keys == s.threads.Keys
    && (forall t :: t in s.threads ==>
          var th, th' := s.threads[t], s'.threads[t];
          && th'.priority == th.priority && th'.elapsed == th.elapsed
          && th'.ticks == (if running && t == s.cur then th.priority else th.ticks)
          && (t != s'.cur && t !in s'.ready ==> th'.status == th.status))
  }

  lemma LastInQueue(q: seq<Tid>, t: Tid)
    ensures var r := q + [t]; t == r[0] || t in r[1..]
  {
    var r := q + [t];
    assert r[|q|] == t && (|q| > 0 ==> r[1..][|q| - 1] == t);
  }

  lemma ScheduleIs(s: State)
    requires Core(s)
    ensures Schedule(s).Ok? && Inv(Schedule(s).value) && Scheduled(s, Schedule(s).value)
  {
    hide SemasOk, WaitersOk, DowningOk, QueueOk, QuantumOk, Inv, Dispatch;
    if HasStatus(s, s.cur, Running) {
      RequeueKeeps(s);
      LastInQueue(s.ready, s.cur);
    } else {
      NotRequeued(s);
    }
    var s1 := Requeue(s).value;
    DispatchKeeps(s1);
    DispatchIs(s1);
  }

  lemma NotRequeued(s: State)
    requires Core(s) && !HasStatus(s, s.cur, Running)
    ensures Requeue(s) == Ok(s)
  {
  }

  lemma DispatchIs(s: State)
    requires Dispatch(s).Ok?
    ensures var s' := Dispatch(s).value;
            && s'.idle == s.idle && s'.semas == s.semas && s'.downing == s.downing
            && s'.threads.Keys == s.threads.Keys
            && forall t :: t in s.threads ==>
                 s'.threads[t] == s.threads[t].(status := s'.threads[t].status)
                 && (t != s'.cur && t !in s'.ready ==> s'.threads[t].status == s.threads[t].status)
  {
  }

  // ---------------------------------------------------------------- every event

  /** The running thread is on no list. */
  lemma RunnerOff(s: State)
    requires Inv(s)
    ensures s.cur in s.threads && s.cur !in s.ready && HasStatus(s, s.cur, Running)
  {
    assert !HasStatus(s, s.cur, Ready);
  }

  lemma ReadyIsReady(s: State)
    requires Inv(s)
    ensures HasStatus(s, s.cur, Running) && forall t :: t in s.ready ==> HasStatus(s, t, Ready)
  {
  }

  /** The state in which the timer calls schedule: the interrupt has been counted. */
  function Counted(s: State): State
    requires s.cur in s.threads
  {
    var th := s.threads[s.cur];
    s.(threads := s.threads[s.cur := th.(elapsed := (th.elapsed + 1) % 0x1_0000_0000)])
  }

  lemma CountedIsCore(s: State)
    requires Inv(s)
    ensures s.cur in s.threads && Core(Counted(s)) && HasStatus(Counted(s), s.cur, Running)
    ensures s.threads[s.cur].ticks == 0 ==> Tick(s) == Schedule(Counted(s))
  {
    RunnerOff(s);
    hide SemasOk, WaitersOk, DowningOk, QueueOk, QuantumOk, Schedule;
    CountKeeps(s, Counted(s).threads[s.cur]);
  }

  lemma TickMoves(s: State)
    requires Inv(s)
    ensures s.cur in s.threads && Tick(s).Ok? && Moves(s, TimerTick, Tick(s).value)
  {
    hide Core, Schedule;
    RunnerOff(s);
    TickKeeps(s);
    ReadyIsReady(s);
    if s.threads[s.cur].ticks == 0 {
      TickEnds(s);
    }
  }

  lemma TickEnds(s: State)
    requires Inv(s) && s.cur in s.threads && s.threads[s.cur].ticks == 0
    ensures Tick(s).Ok? && Moves(s, TimerTick, Tick(s).value)
  {
    hide Inv, Core, Schedule, Tick;
    TickKeeps(s);
    ReadyIsReady(Tick(s).value);
    CountedIsCore(s);
    ScheduleIs(Counted(s));
    LastInQueue(s.ready, s.cur);
  }

  lemma YieldIs(s: State)
    requires Inv(s)
    ensures s.cur in s.threads && Yield(s) == Schedule(Yielded(s))
  {
    hide Core, Schedule;
    RunnerOff(s);
  }

  lemma YieldMoves(s: State)
    requires Inv(s)
    ensures s.cur in s.threads && Yield(s).Ok? && Moves(s, YieldNow, Yield(s).value)
  {
    hide Inv, Core, Schedule, Yield;
    YieldIs(s);
    YieldedIsCore(s);
    LastInQueue(s.ready, s.cur);
    ScheduleIs(Yielded(s));
    ReadyIsReady(Yield(s).value);
  }

  lemma BlockIs(s: State, st: Status)
    requires Inv(s) && Sleeping(st)
    ensures s.cur in s.threads && Block(s, st) == Schedule(SetStatus(s, s.cur, st))
  {
    hide Core, Schedule;
    RunnerOff(s);
  }

  lemma BlockMoves(s: State, st: Status)
    requires Inv(s) && Legal(s, BlockAs(st))
    ensures s.cur in s.threads && Block(s, st).Ok? && Moves(s, BlockAs(st), Block(s, st).value)
  {
    hide Inv, Core, Schedule, Block;
    BlockIs(s, st);
    SleepKeeps(s, st);
    ScheduleIs(SetStatus(s, s.cur, st));
    ReadyIsReady(Block(s, st).value);
  }

  lemma DownMoves(s: State, m: nat)
    requires Inv(s) && Legal(s, SemaDown(m))
    ensures s.cur in s.threads && Down(s, m).Ok? && Moves(s, SemaDown(m), Down(s, m).value)
  {
    hide Core, Schedule;
    RunnerOff(s);
    StepKeeps(s, SemaDown(m));
    ReadyIsReady(s);
    if s.semas[m].value == 0 {
      WaitedIsCore(s, m);
      ScheduleIs(Waited(s, m));
      ReadyIsReady(Down(s, m).value);
    }
  }

  lemma WakeMoves(s: State, t: Tid)
    requires Inv(s) && Legal(s, Wake(t))
    ensures s.cur in s.threads && Unblock(s, t).Ok? && Moves(s, Wake(t), Unblock(s, t).value)
  {
    hide SemasOk, WaitersOk, DowningOk, QueueOk, QuantumOk;
    RunnerOff(s);
    StepKeeps(s, Wake(t));
    ReadyIsReady(Unblock(s, t).value);
  }

  lemma UpMoves(s: State, m: nat)
    requires Inv(s) && Legal(s, SemaUp(m)) && Up(s, m).Ok?
    ensures s.cur in s.threads && Moves(s, SemaUp(m), Up(s, m).value)
  {
    hide SemasOk, WaitersOk, DowningOk, QueueOk, QuantumOk;
    RunnerOff(s);
    StepKeeps(s, SemaUp(m));
    ReadyIsReady(Up(s, m).value);
  }

  lemma StartMoves(s: State, t: Tid, prio: nat)
    requires Inv(s) && Legal(s, NewThread(t, prio))
    ensures s.cur in s.threads && Start(s, t, prio).Ok? && Moves(s, NewThread(t, prio), Start(s, t, prio).value)
  {
    hide SemasOk, WaitersOk, DowningOk, QueueOk, QuantumOk;
    RunnerOff(s);
    StepKeeps(s, NewThread(t, prio));
    ReadyIsReady(Start(s, t, prio).value);
  }

  /** From every state of every run, each event moves the queue, the threads and the semaphores exactly so. */
  lemma StepMoves(s: State, e: Event)
    requires Inv(s) && Legal(s, e) && Step(s, e).Ok?
    ensures s.cur in s.threads && Moves(s, e, Step(s, e).value)
  {
    hide Inv, Moves, Schedule;
    match e
    case TimerTick => TickMoves(s);
    case YieldNow => YieldMoves(s);
    case BlockAs(st) => BlockMoves(s, st);
    case Wake(t) => WakeMoves(s, t);
    case SemaDown(m) => DownMoves(s, m);
    case SemaUp(m) => UpMoves(s, m);
    case NewThread(t, prio) => StartMoves(s, t, prio);
  }

  // ---------------------------------------------------------------- the quantum over runs

  /** The timer interrupts that find `t` running, and those of them that preempt it. */
  function TicksOf(s: State, es: seq<Event>, t: Tid): nat
    decreases |es|
  {
    if es == [] then 0
    else
      Bit(es[0].TimerTick? && s.cur == t)
      + (if Step(s, es[0]).Ok? then TicksOf(Step(s, es[0]).value, es[1..], t) else 0)
  }

  function Preemptions(s: State, es: seq<Event>, t: Tid): nat
    decreases |es|
  {
    if es == [] then 0
    else
      Bit(es[0].TimerTick? && s.cur == t && t in s.threads && s.threads[t].ticks == 0)
      + (if Step(s, es[0]).Ok? then Preemptions(Step(s, es[0]).value, es[1..], t) else 0)
  }

  lemma TickOf(s: State, e: Event, t: Tid)
    requires Inv(s) && Legal(s, e) && Step(s, e).Ok? && t in s.threads
    ensures var s' := Step(s, e).value;
            var p := e.TimerTick? && s.cur == t && s.threads[t].ticks == 0;
            && t in s'.threads && s'.threads[t].priority == s.threads[t].priority
            && s'.threads[t].ticks + Bit(e.TimerTick? && s.cur == t) ==
               s.threads[t].ticks + if p then s.threads[t].priority + 1 else 0
  {
    hide Inv, Step, Legal, QueueMoves, Sleeps, SemasMove;
    StepMoves(s, e);
  }

  lemma OneMore(q: nat, n: nat)
    ensures q * (n + 1) == q * n + q && q * (1 + n) == q * n + q && q * (0 + n) == q * n
  {
  }

  /** Exact accounting, in every run and whatever else the thread does: it is preempted once for every `priority` + 1
      timer interrupts that find it running. */
  lemma {:induction false} QuantumExact(s: State, es: seq<Event>, t: Tid)
    requires Inv(s) && LegalRun(s, es) && Run(s, es).Ok? && t in s.threads
    ensures var s' := Run(s, es).value;
            && t in s'.threads && s'.threads[t].priority == s.threads[t].priority
            && TicksOf(s, es, t) + s'.threads[t].ticks ==
               s.threads[t].ticks + (s.threads[t].priority + 1) * Preemptions(s, es, t)
    decreases |es|
  {
    hide Inv, Step, Legal;
    if es != [] {
      TickOf(s, es[0], t);
      StepKeeps(s, es[0]);
      var s1 := Step(s, es[0]).value;
      QuantumExact(s1, es[1..], t);
      OneMore(s.threads[t].priority + 1, Preemptions(s1, es[1..], t));
    }
  }

  /** The running thread neither sleeps nor yields. */
  predicate KeepsGoing(s: State, es: seq<Event>)
    decreases |es|
  {
    es == [] ||
    (!(CallsSchedule(s, es[0]) && !es[0].TimerTick?)
     && Step(s, es[0]).Ok? && KeepsGoing(Step(s, es[0]).value, es[1..]))
  }

  /** As long as its ticks last, a thread that keeps going keeps the processor. */
  lemma {:induction false} KeepsProcessor(s: State, es: seq<Event>)
    requires Inv(s) && LegalRun(s, es) && KeepsGoing(s, es) && Run(s, es).Ok?
    requires s.cur in s.threads && TickCount(es) <= s.threads[s.cur].ticks
    ensures var s' := Run(s, es).value;
            && Inv(s') && s'.cur == s.cur && s.cur in s'.threads
            && s'.threads[s.cur].ticks + TickCount(es) == s.threads[s.cur].ticks
            && s'.threads[s.cur].priority == s.threads[s.cur].priority
    decreases |es|
  {
    hide Inv, Step, Legal, Sleeps, SemasMove;
    if es != [] {
      StepMoves(s, es[0]);
      StepKeeps(s, es[0]);
      KeepsProcessor(Step(s, es[0]).value, es[1..]);
    }
  }

  /** The timer interrupt that finds no tick left: the thread gets its whole quantum back and goes to the end of the
      queue, or runs on when there is no other. */
  lemma Preempted(s: State)
    requires Inv(s) && s.cur in s.threads && s.threads[s.cur].ticks == 0
    ensures Tick(s).Ok? && Inv(Tick(s).value)
    ensures var t, s' := s.cur, Tick(s).value;
            && t in s'.threads && s'.threads[t].ticks == s'.threads[t].priority == s.threads[t].priority
            && (if s.ready == [] then s'.cur == t && s'.ready == []
                else s'.cur == s.ready[0] && s'.ready == s.ready[1..] + [t] && s'.threads[t].status == Ready)
  {
    TickMoves(s);
    TickKeeps(s);
    hide Inv, Tick;
  }

  /** A thread is preempted, waits for its turn in `wait`, and then keeps going in `go`: it runs through exactly as many
      timer interrupts as its priority says, and the next one preempts it again, with a new quantum. */
  lemma WholeQuantum(s: State, wait: seq<Event>, s1: State, go: seq<Event>, s2: State)
    requires Inv(s) && s.cur in s.threads && s.threads[s.cur].ticks == 0 && Tick(s).Ok?
    requires LegalRun(Tick(s).value, wait) && Run(Tick(s).value, wait) == Ok(s1)
    requires TicksOf(Tick(s).value, wait, s.cur) == 0 && s1.cur == s.cur
    requires LegalRun(s1, go) && Run(s1, go) == Ok(s2) && KeepsGoing(s1, go)
    ensures TickCount(go) <= s.threads[s.cur].priority ==> s2.cur == s.cur
    ensures TickCount(go) == s.threads[s.cur].priority ==>
              && CallsSchedule(s2, TimerTick) && Tick(s2).Ok?
              && var t, s3 := s.cur, Tick(s2).value;
              && t in s3.threads
              && s3.threads[t].ticks == s3.threads[t].priority == s.threads[t].priority
              && (if s2.ready == [] then s3.cur == t else s3.cur == s2.ready[0] && s3.ready == s2.ready[1..] + [t])
  {
    hide Inv, Tick, Step, Legal, LegalRun, Run, KeepsGoing;
    var t := s.cur;
    Preempted(s);
    RunKeeps(Tick(s).value, wait);
    QuantumExact(Tick(s).value, wait, t);
    FullAgain(Tick(s).value, wait, t, s1);
    if TickCount(go) <= s.threads[t].priority {
      KeepsProcessor(s1, go);
    }
    if TickCount(go) == s.threads[t].priority {
      Preempted(s2);
    }
  }

  /** Waiting does not change the quantum. */
  lemma FullAgain(s: State, es: seq<Event>, t: Tid, s1: State)
    requires Inv(s) && LegalRun(s, es) && Run(s, es) == Ok(s1) && t in s.threads && TicksOf(s, es, t) == 0
    ensures t in s1.threads && s1.threads[t].ticks == s.threads[t].ticks
    ensures s1.threads[t].priority == s.threads[t].priority
  {
    hide Inv, Step, Legal, LegalRun, Run;
    QuantumExact(s, es, t);
    NoPreemption(s, es, t);
  }

  lemma {:induction false} NoPreemption(s: State, es: seq<Event>, t: Tid)
    ensures Preemptions(s, es, t) <= TicksOf(s, es, t)
    decreases |es|
  {
    if es != [] && Step(s, es[0]).Ok? {
      NoPreemption(Step(s, es[0]).value, es[1..], t);
    }
  }

  // ---------------------------------------------------------------- the order of waiters

  function Ups(es: seq<Event>, m: nat): nat {
    if es == [] then 0 else Bit(es[0] == SemaUp(m)) + Ups(es[1..], m)
  }

  lemma WaiterMoves(s: State, e: Event, m: nat, p: nat)
    requires Inv(s) && Legal(s, e) && Step(s, e).Ok? && m in s.semas && p < |s.semas[m].waiters|
    requires e == SemaUp(m) ==> p > 0
    ensures var s' := Step(s, e).value;
            var p' := p - Bit(e == SemaUp(m));
            m in s'.semas && p' < |s'.semas[m].waiters| && s'.semas[m].waiters[p'] == s.semas[m].waiters[p]
  {
    hide Inv, Step, Legal, QueueMoves, Sleeps, QuantaMove;
    StepMoves(s, e);
  }

  /** First come, first served: whoever stands at place `p` moves up by one with each sema_up, and the one after that
      wakes it and puts it in front of the ready list. */
  lemma {:induction false} WokenInOrder(s: State, es: seq<Event>, m: nat, p: nat)
    requires Inv(s) && LegalRun(s, es) && Run(s, es).Ok? && m in s.semas && p < |s.semas[m].waiters|
    requires Ups(es, m) <= p
    ensures var s', p', t := Run(s, es).value, p - Ups(es, m), s.semas[m].waiters[p];
            && m in s'.semas && p' < |s'.semas[m].waiters| && s'.semas[m].waiters[p'] == t
            && (p' == 0 && Legal(s', SemaUp(m)) && Step(s', SemaUp(m)).Ok? ==>
                  Step(s', SemaUp(m)).value.ready == [t] + s'.ready)
    decreases |es|
  {
    hide Inv, Step, Legal, Sleeps, QuantaMove;
    if es == [] {
      if Legal(s, SemaUp(m)) && Step(s, SemaUp(m)).Ok? {
        StepMoves(s, SemaUp(m));
      }
    } else {
      StepKeeps(s, es[0]);
      WaiterMoves(s, es[0], m, p);
      WokenInOrder(Step(s, es[0]).value, es[1..], m, p - Bit(es[0] == SemaUp(m)));
    }
  }
}
