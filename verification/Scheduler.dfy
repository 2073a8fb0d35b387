/** Threads and semaphores of os/kernel/thread.c, os/kernel/sync.c and os/kernel/clock.c, as functions on the
    scheduler's state. A function covers the code from one switch of threads to the next, with interrupts off. */
module Scheduler {
  import opened Words

  type Tid = nat

  /** enum task_status */
  datatype Status = Running | Ready | Blocked | Waiting | Hanging | Died

  datatype Thread = Thread(status: Status, priority: nat, ticks: nat, elapsed: Word)

  /** struct semaphore; `init`, `ups` and `downs` record its history: the value of sema_init and the completed
      calls of sema_up and sema_down. */
  datatype Sema = Sema(value: nat, waiters: seq<Tid>, init: nat, ups: nat, downs: nat)

  /** `downing` says which threads are inside the loop of sema_down, and for which semaphore; `ready` and the
      waiter lists hold threads by their general_tag. */
  datatype State = State(cur: Tid, idle: Tid, threads: map<Tid, Thread>, ready: seq<Tid>,
                         semas: map<nat, Sema>, downing: map<Tid, nat>)

  /** The three states in which thread_block leaves a thread and out of which thread_unblock takes it. */
  predicate Sleeping(st: Status) {
    st == Blocked || st == Waiting || st == Hanging
  }

  function SetStatus(s: State, t: Tid, st: Status): State
    requires t in s.threads
  {
    s.(threads := s.threads[t := s.threads[t].(status := st)])
  }

  /** thread_unblock: the thread goes to the front of the ready list. */
  function Unblock(s: State, t: Tid): Outcome<State> {
    if t !in s.threads || !Sleeping(s.threads[t].status) || t in s.ready then Halt
    else Ok(SetStatus(s, t, Ready).(ready := [t] + s.ready))
  }

  /** The first half of schedule: a thread that is still running goes to the end of the ready list with a new
      quantum. */
  function Requeue(s: State): Outcome<State> {
    if s.cur !in s.threads then Halt
    else if s.threads[s.cur].status == Running then
      if s.cur in s.ready then Halt
      else
        var th := s.threads[s.cur];
        Ok(s.(threads := s.threads[s.cur := th.(status := Ready, ticks := th.priority)], ready := s.ready + [s.cur]))
    else Ok(s)
  }

  /** The second half: take the first thread of the ready list, or wake the idle thread when there is none. */
  function Dispatch(s: State): Outcome<State> {
    match (if s.ready == [] then Unblock(s, s.idle) else Ok(s))
    case Halt => Halt
    case Ok(s1) =>
      if s1.ready == [] || s1.ready[0] !in s1.threads then Halt
      else
        var next := s1.ready[0];
        Ok(SetStatus(s1, next, Running).(ready := s1.ready[1..], cur := next))
  }

  /** schedule */
  function Schedule(s: State): Outcome<State> {
    match Requeue(s)
    case Halt => Halt
    case Ok(s1) => Dispatch(s1)
  }

  /** thread_block, up to the switch. */
  function Block(s: State, st: Status): Outcome<State> {
    if !Sleeping(st) || s.cur !in s.threads then Halt else Schedule(SetStatus(s, s.cur, st))
  }

  /** thread_yield, up to the switch; it does not renew the quantum. */
  function Yield(s: State): Outcome<State> {
    if s.cur !in s.threads || s.cur in s.ready then Halt
    else Schedule(SetStatus(s, s.cur, Ready).(ready := s.ready + [s.cur]))
  }

  /** timer_intr_handler */
  function Tick(s: State): Outcome<State> {
    if s.cur !in s.threads then Halt
    else
      var th := s.threads[s.cur];
      var th1 := th.(elapsed := (th.elapsed + 1) % 0x1_0000_0000);
      if th.ticks == 0 then Schedule(s.(threads := s.threads[s.cur := th1]))
      else Ok(s.(threads := s.threads[s.cur := th1.(ticks := th.ticks - 1)]))
  }

  /** One pass of the loop of sema_down: take the token, or queue up and block. */
  function Down(s: State, m: nat): Outcome<State> {
    if m !in s.semas then Halt
    else
      var sm := s.semas[m];
      if sm.value == 0 then
        if s.cur in sm.waiters then Halt
        else Block(s.(semas := s.semas[m := sm.(waiters := sm.waiters + [s.cur])], downing := s.downing[s.cur := m]),
            Blocked)
      else if sm.value != 1 then Halt
      else Ok(s.(semas := s.semas[m := sm.(value := 0, downs := sm.downs + 1)], downing := s.downing - {s.cur}))
  }

  /** sema_up */
  function Up(s: State, m: nat): Outcome<State> {
    if m !in s.semas || s.semas[m].value != 0 then Halt
    else
      var sm := s.semas[m];
      if sm.waiters == [] then Ok(s.(semas := s.semas[m := sm.(value := 1, ups := sm.ups + 1)]))
      else
        Unblock(s.(semas := s.semas[m := sm.(value := 1, ups := sm.ups + 1, waiters := sm.waiters[1..])]),
            sm.waiters[0])
  }

  /** thread_start: a new thread at the end of the ready list, with a full quantum. */
  function Start(s: State, t: Tid, prio: nat): Outcome<State> {
    if t in s.ready then Halt
    else Ok(s.(threads := s.threads[t := Thread(Ready, prio, prio, 0)], ready := s.ready + [t]))
  }

  // ---------------------------------------------------------------- events

  datatype Event =
    | TimerTick
    | YieldNow
    | BlockAs(st: Status)
    | Wake(t: Tid)
    | SemaDown(m: nat)
    | SemaUp(m: nat)
    | NewThread(t: Tid, prio: nat)

  ghost predicate OnWaiters(s: State, t: Tid) {
    exists m :: m in s.semas && t in s.semas[m].waiters
  }

  /** What can happen next. Interrupts come at any time; a thread inside sema_down goes on with its loop; the idle
      thread takes no semaphores; thread_unblock is meant for threads that sleep outside of semaphores. */
  ghost predicate Legal(s: State, e: Event) {
    match e
    case TimerTick => true
    case YieldNow => s.cur !in s.downing
    case BlockAs(st) => s.cur !in s.downing && Sleeping(st)
    case Wake(t) => t in s.threads && Sleeping(s.threads[t].status) && !OnWaiters(s, t)
    case SemaDown(m) => s.cur != s.idle && m in s.semas && (s.cur in s.downing ==> s.downing[s.cur] == m)
    case SemaUp(m) => m in s.semas
    case NewThread(t, prio) => t !in s.threads && prio < 256
  }

  function Step(s: State, e: Event): Outcome<State> {
    match e
    case TimerTick => Tick(s)
    case YieldNow => Yield(s)
    case BlockAs(st) => Block(s, st)
    case Wake(t) => Unblock(s, t)
    case SemaDown(m) => Down(s, m)
    case SemaUp(m) => Up(s, m)
    case NewThread(t, prio) => Start(s, t, prio)
  }
}
