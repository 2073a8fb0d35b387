/** The run queue and the semaphores over every interleaving. */
module SchedulerInvariant {
  import opened Words
  import opened Scheduler

  ghost predicate HasStatus(s: State, t: Tid, st: Status) {
    t in s.threads && s.threads[t].status == st
  }

  /** The ready list has no duplicates and is exactly the READY threads; nobody but `cur` is RUNNING. */
  ghost predicate QueueOk(s: State) {
    && s.cur in s.threads && s.idle in s.threads
    && NoDup(s.ready)
    && (forall t: Tid :: t in s.ready <==> HasStatus(s, t, Ready))
    && (forall t: Tid :: HasStatus(s, t, Running) ==> t == s.cur)
    && (forall t: Tid :: !HasStatus(s, t, Died))
  }

  ghost predicate QuantumOk(s: State) {
    forall t :: t in s.threads ==> s.threads[t].ticks <= s.threads[t].priority < 256
  }

  /** A waiter list has no duplicates and holds blocked threads that are inside sema_down for that semaphore. */
  ghost predicate WaitersOk(s: State) {
    && (forall m :: m in s.semas ==> NoDup(s.semas[m].waiters))
    && (forall m, t :: m in s.semas && t in s.semas[m].waiters ==>
          HasStatus(s, t, Blocked) && t in s.downing && s.downing[t] == m)
  }

  /** A thread inside sema_down is on the waiter list, or has been woken and is ready or running again. */
  ghost predicate DowningOk(s: State) {
    forall t :: t in s.downing ==>
      && t in s.threads && t != s.idle && s.downing[t] in s.semas
      && (t in s.semas[s.downing[t]].waiters || s.threads[t].status == Ready || s.threads[t].status == Running)
  }

  /** Thread `t` has been woken from semaphore `m` and has not tried again yet. */
  ghost predicate Woken(s: State, m: nat, t: Tid) {
    m in s.semas && t in s.downing && s.downing[t] == m && t !in s.semas[m].waiters
  }

  /** Tokens are conserved, there is at most one, and none lies there while everybody sleeps. */
  ghost predicate SemaOk(s: State, m: nat)
    requires m in s.semas
  {
    var sm := s.semas[m];
    && sm.value <= 1 && sm.value + sm.downs == sm.init + sm.ups
    && (sm.value == 1 && sm.waiters != [] ==> exists t: Tid :: Woken(s, m, t))
  }

  ghost predicate SemasOk(s: State) {
    forall m :: m in s.semas ==> SemaOk(s, m)
  }

  /** Between two switches of threads. */
  ghost predicate Inv(s: State) {
    Core(s) && HasStatus(s, s.cur, Running)
  }

  ghost predicate Core(s: State) {
    QueueOk(s) && QuantumOk(s) && WaitersOk(s) && DowningOk(s) && SemasOk(s)
  }

  // ---------------------------------------------------------------- schedule

  /** The idle thread is never on a waiter list, so when nobody is ready it can be woken. */
  lemma IdleSleeps(s: State)
    requires QueueOk(s) && s.ready == [] && !HasStatus(s, s.cur, Running)
    ensures Unblock(s, s.idle).Ok?
  {
    assert HasStatus(s, s.idle, s.threads[s.idle].status);
    assert !HasStatus(s, s.idle, Ready) && !HasStatus(s, s.idle, Died);
  }

  /** Semaphores do not depend on the state of the run queue. */
  lemma SemasFrame(s: State, s': State)
    requires SemasOk(s) && s'.semas == s.semas && s'.downing == s.downing
    ensures SemasOk(s')
  {
    forall m | m in s'.semas ensures SemaOk(s', m) {
      assert SemaOk(s, m);
      if s.semas[m].value == 1 && s.semas[m].waiters != [] {
        var u: Tid :| Woken(s, m, u);
        assert Woken(s', m, u);
      }
    }
  }

  /** What happens to semaphore `m` does not concern the others. */
  lemma OtherSemasStay(s: State, s': State, m: nat)
    requires SemasOk(s) && s'.semas.Keys == s.semas.Keys
    requires forall k :: k in s.semas && k != m ==> s'.semas[k] == s.semas[k]
    requires forall u :: u in s.downing && s.downing[u] != m ==> u in s'.downing && s'.downing[u] == s.downing[u]
    ensures forall k :: k in s'.semas && k != m ==> SemaOk(s', k)
  {
    forall k | k in s'.semas && k != m ensures SemaOk(s', k) {
      assert SemaOk(s, k);
      if s.semas[k].value == 1 && s.semas[k].waiters != [] {
        var u: Tid :| Woken(s, k, u);
        assert Woken(s', k, u);
      }
    }
  }

  /** Waiters and threads inside sema_down stay what they are when a thread that is on no waiter list changes
      between READY and RUNNING, or sleeps outside of sema_down. */
  lemma StatusFrame(s: State, s': State, t: Tid)
    requires WaitersOk(s) && DowningOk(s) && s'.semas == s.semas && s'.downing == s.downing && s'.idle == s.idle
    requires forall u: Tid, st :: u != t ==> HasStatus(s', u, st) == HasStatus(s, u, st)
    requires forall u :: u in s.threads ==> u in s'.threads
    requires !OnWaiters(s, t)
    requires t in s.downing ==> HasStatus(s', t, Ready) || HasStatus(s', t, Running)
    ensures WaitersOk(s') && DowningOk(s')
  {
    forall u | u in s'.downing && u != t ensures HasStatus(s', u, s.threads[u].status) {
      assert HasStatus(s, u, s.threads[u].status);
    }
  }

  /** A thread that is neither ready nor running goes to the front of the ready list. */
  lemma QueuePush(s: State, s': State, t: Tid)
    requires QueueOk(s) && QuantumOk(s) && t in s.threads && !HasStatus(s, t, Ready) && !HasStatus(s, t, Running)
    requires s'.threads == s.threads[t := s.threads[t].(status := Ready)]
    requires s'.ready == [t] + s.ready && s'.cur == s.cur && s'.idle == s.idle
    ensures QueueOk(s') && QuantumOk(s')
    ensures forall u: Tid, st :: u != t ==> HasStatus(s', u, st) == HasStatus(s, u, st)
    ensures HasStatus(s', t, Ready)
  {
    assert forall u: Tid, st :: u != t ==> HasStatus(s', u, st) == HasStatus(s, u, st);
  }

  lemma UnblockKeeps(s: State, t: Tid)
    requires Core(s) && t in s.threads && Sleeping(s.threads[t].status) && !OnWaiters(s, t)
    ensures Unblock(s, t).Ok? && Core(Unblock(s, t).value)
    ensures Unblock(s, t).value.ready == [t] + s.ready && !HasStatus(s, t, Running)
  {
    assert !HasStatus(s, t, Ready);
    var s' := Unblock(s, t).value;
    QueuePush(s, s', t);
    hide QueueOk, QuantumOk;
    SemasFrame(s, s');
    StatusFrame(s, s', t);
  }

  /** A thread that runs or is ready is on no waiter list. */
  lemma NotWaiting(s: State, t: Tid)
    requires WaitersOk(s) && (HasStatus(s, t, Running) || HasStatus(s, t, Ready))
    ensures !OnWaiters(s, t)
  {
    assert forall m :: m in s.semas && t in s.semas[m].waiters ==> HasStatus(s, t, Blocked);
  }

  lemma RequeueKeeps(s: State)
    requires Core(s) && HasStatus(s, s.cur, Running)
    ensures Requeue(s).Ok? && Core(Requeue(s).value)
    ensures Requeue(s).value.ready == s.ready + [s.cur] && HasStatus(Requeue(s).value, s.cur, Ready)
  {
    assert !HasStatus(s, s.cur, Ready);
    var s' := Requeue(s).value;
    NotWaiting(s, s.cur);
    assert forall u: Tid, st :: u != s.cur ==> HasStatus(s', u, st) == HasStatus(s, u, st);
    SemasFrame(s, s');
    StatusFrame(s, s', s.cur);
    hide SemasOk, WaitersOk, DowningOk;
  }

  lemma TakeFirst(s: State)
    requires Core(s) && !HasStatus(s, s.cur, Running) && s.ready != []
    ensures Dispatch(s).Ok? && Inv(Dispatch(s).value)
    ensures Dispatch(s).value.ready == s.ready[1..] && Dispatch(s).value.cur == s.ready[0]
  {
    var next := s.ready[0];
    assert next in s.ready && HasStatus(s, next, Ready);
    var s' := Dispatch(s).value;
    NotWaiting(s, next);
    assert forall u: Tid, st :: u != next ==> HasStatus(s', u, st) == HasStatus(s, u, st);
    SemasFrame(s, s');
    StatusFrame(s, s', next);
    assert s.ready == [next] + s.ready[1..];
    hide SemasOk, WaitersOk, DowningOk;
  }

  /** schedule always finds a thread to run. */
  lemma DispatchKeeps(s: State)
    requires Core(s) && !HasStatus(s, s.cur, Running)
    ensures Dispatch(s).Ok? && Inv(Dispatch(s).value)
    ensures s.ready != [] ==> Dispatch(s).value.ready == s.ready[1..] && Dispatch(s).value.cur == s.ready[0]
    ensures s.ready == [] ==> Dispatch(s).value.ready == [] && Dispatch(s).value.cur == s.idle
  {
    if s.ready == [] {
      IdleSleeps(s);
      IdleNotWaiting(s);
      UnblockKeeps(s, s.idle);
      var s1 := Unblock(s, s.idle).value;
      assert HasStatus(s1, s1.cur, Running) ==> HasStatus(s, s.cur, Running);
      TakeFirst(s1);
    } else {
      TakeFirst(s);
    }
  }

  lemma IdleNotWaiting(s: State)
    requires WaitersOk(s) && DowningOk(s)
    ensures !OnWaiters(s, s.idle)
  {
    assert forall m :: m in s.semas && s.idle in s.semas[m].waiters ==>
        HasStatus(s, s.idle, Blocked) && s.idle in s.downing;
  }

  lemma ScheduleKeeps(s: State)
    requires Core(s)
    ensures Schedule(s).Ok? && Inv(Schedule(s).value)
  {
    hide SemasOk, WaitersOk, DowningOk, QuantumOk, Dispatch;
    if HasStatus(s, s.cur, Running) {
      RequeueKeeps(s);
    }
    DispatchKeeps(Requeue(s).value);
  }

  // ---------------------------------------------------------------- the events

  lemma SleepKeeps(s: State, st: Status)
    requires Inv(s) && Sleeping(st) && s.cur !in s.downing
    ensures Core(SetStatus(s, s.cur, st)) && !HasStatus(SetStatus(s, s.cur, st), s.cur, Running)
  {
    var s' := SetStatus(s, s.cur, st);
    NotWaiting(s, s.cur);
    assert forall u: Tid, x :: u != s.cur ==> HasStatus(s', u, x) == HasStatus(s, u, x);
    assert !HasStatus(s, s.cur, Ready);
    SemasFrame(s, s');
    StatusFrame(s, s', s.cur);
    hide SemasOk, WaitersOk, DowningOk;
  }

  /** The state in which thread_yield calls schedule. */
  function Yielded(s: State): State
    requires s.cur in s.threads
  {
    SetStatus(s, s.cur, Ready).(ready := s.ready + [s.cur])
  }

  lemma YieldedIsCore(s: State)
    requires Inv(s)
    ensures s.cur !in s.ready && Core(Yielded(s)) && HasStatus(Yielded(s), s.cur, Ready)
  {
    assert !HasStatus(s, s.cur, Ready);
    var s' := Yielded(s);
    NotWaiting(s, s.cur);
    assert forall u: Tid, st :: u != s.cur ==> HasStatus(s', u, st) == HasStatus(s, u, st);
    SemasFrame(s, s');
    StatusFrame(s, s', s.cur);
    hide SemasOk, WaitersOk, DowningOk;
  }

  lemma YieldKeeps(s: State)
    requires Inv(s)
    ensures Yield(s).Ok? && Inv(Yield(s).value)
  {
    hide SemasOk, WaitersOk, DowningOk, Schedule;
    YieldedIsCore(s);
    ScheduleKeeps(Yielded(s));
  }

  lemma TickKeeps(s: State)
    requires Inv(s)
    ensures Tick(s).Ok? && Inv(Tick(s).value)
  {
    var th := s.threads[s.cur];
    var th1 := th.(elapsed := (th.elapsed + 1) % 0x1_0000_0000);
    var th2 := if th.ticks == 0 then th1 else th1.(ticks := th.ticks - 1);
    var s' := s.(threads := s.threads[s.cur := th2]);
    hide Schedule, SemasOk, WaitersOk, DowningOk;
    CountKeeps(s, th2);
    ScheduleKeeps(s');
  }

  lemma CountKeeps(s: State, th: Thread)
    requires Inv(s) && th.status == Running && th.priority == s.threads[s.cur].priority && th.ticks <= th.priority
    ensures Inv(s.(threads := s.threads[s.cur := th]))
  {
    var s' := s.(threads := s.threads[s.cur := th]);
    NotWaiting(s, s.cur);
    assert forall u: Tid, st :: HasStatus(s', u, st) == HasStatus(s, u, st);
    SemasFrame(s, s');
    StatusFrame(s, s', s.cur);
    hide SemasOk, WaitersOk, DowningOk;
    assert QueueOk(s');
  }

  lemma StartKeeps(s: State, t: Tid, prio: nat)
    requires Inv(s) && t !in s.threads && prio < 256
    ensures Start(s, t, prio).Ok? && Inv(Start(s, t, prio).value)
  {
    assert !HasStatus(s, t, Ready);
    var s' := Start(s, t, prio).value;
    assert forall m :: m in s.semas && t in s.semas[m].waiters ==> HasStatus(s, t, Blocked);
    assert forall u: Tid, st :: u != t ==> HasStatus(s', u, st) == HasStatus(s, u, st);
    SemasFrame(s, s');
    StatusFrame(s, s', t);
    hide SemasOk, WaitersOk, DowningOk;
  }

  // ---------------------------------------------------------------- semaphores

  /** The state in which sema_down calls schedule: the thread is on the waiter list and sleeps. */
  function Waited(s: State, m: nat): State
    requires s.cur in s.threads && m in s.semas
  {
    var sm := s.semas[m];
    SetStatus(s.(semas := s.semas[m := sm.(waiters := sm.waiters + [s.cur])], downing := s.downing[s.cur := m]), s.cur,
        Blocked)
  }

  lemma WaitedIsCore(s: State, m: nat)
    requires Inv(s) && Legal(s, SemaDown(m)) && s.semas[m].value == 0
    ensures Core(Waited(s, m)) && !HasStatus(Waited(s, m), s.cur, Running)
    ensures Down(s, m) == Schedule(Waited(s, m))
  {
    NotWaiting(s, s.cur);
    var s2 := Waited(s, m);
    assert forall u: Tid, st :: u != s.cur ==> HasStatus(s2, u, st) == HasStatus(s, u, st);
    hide Schedule;
    WaitQueue(s, s2);
    WaitLists(s, s2, m);
    WaitTokens(s, s2, m);
  }

  /** sema_down without a token: the thread goes to the end of the waiter list and sleeps. */
  lemma WaitKeeps(s: State, m: nat)
    requires Inv(s) && Legal(s, SemaDown(m)) && s.semas[m].value == 0
    ensures Down(s, m).Ok? && Inv(Down(s, m).value)
  {
    hide Core, Schedule, Down;
    WaitedIsCore(s, m);
    ScheduleKeeps(Waited(s, m));
  }

  lemma WaitQueue(s: State, s2: State)
    requires Inv(s) && s2.threads == s.threads[s.cur := s.threads[s.cur].(status := Blocked)]
    requires s2.ready == s.ready && s2.cur == s.cur && s2.idle == s.idle
    ensures QueueOk(s2) && QuantumOk(s2) && !HasStatus(s2, s.cur, Running)
  {
    assert !HasStatus(s, s.cur, Ready);
    assert forall u: Tid, st :: u != s.cur ==> HasStatus(s2, u, st) == HasStatus(s, u, st);
  }

  lemma WaitLists(s: State, s2: State, m: nat)
    requires Inv(s) && Legal(s, SemaDown(m)) && !OnWaiters(s, s.cur)
    requires s2.semas == s.semas[m := s.semas[m].(waiters := s.semas[m].waiters + [s.cur])]
    requires s2.downing == s.downing[s.cur := m] && s2.idle == s.idle
    requires s2.threads == s.threads[s.cur := s.threads[s.cur].(status := Blocked)]
    ensures WaitersOk(s2) && DowningOk(s2)
  {
    assert forall u: Tid, st :: u != s.cur ==> HasStatus(s2, u, st) == HasStatus(s, u, st);
    assert s.cur !in s.semas[m].waiters;
    forall k, u | k in s2.semas && u in s2.semas[k].waiters
      ensures HasStatus(s2, u, Blocked) && u in s2.downing && s2.downing[u] == k
    {
      if u != s.cur {
        assert u in s.semas[k].waiters;
      }
    }
  }

  lemma WaitTokens(s: State, s2: State, m: nat)
    requires SemasOk(s) && m in s.semas && s.semas[m].value == 0 && (s.cur in s.downing ==> s.downing[s.cur] == m)
    requires s2.semas == s.semas[m := s.semas[m].(waiters := s.semas[m].waiters + [s.cur])]
    requires s2.downing == s.downing[s.cur := m]
    ensures SemasOk(s2)
  {
    OtherSemasStay(s, s2, m);
    assert SemaOk(s, m);
  }

  /** sema_down with a token: it is taken, and the thread leaves the loop. */
  lemma TakeKeeps(s: State, m: nat)
    requires Inv(s) && Legal(s, SemaDown(m)) && s.semas[m].value != 0
    ensures Down(s, m).Ok? && Inv(Down(s, m).value)
    ensures Down(s, m).value.semas[m].value == 0 && s.cur !in Down(s, m).value.downing
  {
    assert SemaOk(s, m);
    NotWaiting(s, s.cur);
    var s' := Down(s, m).value;
    OtherSemasStay(s, s', m);
    assert SemasOk(s');
    hide SemasOk;
    TakeLists(s, s', m);
    assert forall u: Tid, st :: HasStatus(s', u, st) == HasStatus(s, u, st);
    hide WaitersOk, DowningOk;
  }

  lemma TakeLists(s: State, s': State, m: nat)
    requires WaitersOk(s) && DowningOk(s) && m in s.semas && !OnWaiters(s, s.cur)
    requires s'.threads == s.threads && s'.idle == s.idle && s'.downing == s.downing - {s.cur}
    requires s'.semas.Keys == s.semas.Keys && forall k :: k in s.semas ==> s'.semas[k].waiters == s.semas[k].waiters
    ensures WaitersOk(s') && DowningOk(s')
  {
    forall k, u | k in s'.semas && u in s'.semas[k].waiters
      ensures HasStatus(s', u, Blocked) && u in s'.downing && s'.downing[u] == k
    {
      assert u in s.semas[k].waiters && u != s.cur;
    }
  }

  /** sema_up with waiters: the first of them is woken, and a token is there for it. */
  lemma WakeKeeps(s: State, m: nat)
    requires Inv(s) && m in s.semas && s.semas[m].value == 0 && s.semas[m].waiters != []
    ensures Up(s, m).Ok? && Inv(Up(s, m).value) && Up(s, m).value.ready == [s.semas[m].waiters[0]] + s.ready
  {
    var t := s.semas[m].waiters[0];
    assert t in s.semas[m].waiters && HasStatus(s, t, Blocked) && !HasStatus(s, t, Ready);
    var s' := Up(s, m).value;
    hide SemasOk, DowningOk;
    QueuePush(s, s', t);
    assert t != s.cur;
    hide QueueOk, QuantumOk;
    WakeLists(s, s', m, t);
    WakeTokens(s, s', m, t);
  }

  lemma WakeLists(s: State, s': State, m: nat, t: Tid)
    requires WaitersOk(s) && DowningOk(s) && m in s.semas && s.semas[m].waiters != [] && t == s.semas[m].waiters[0]
    requires s'.semas.Keys == s.semas.Keys && s'.semas[m].waiters == s.semas[m].waiters[1..]
    requires forall k :: k in s.semas && k != m ==> s'.semas[k] == s.semas[k]
    requires s'.downing == s.downing && s'.idle == s.idle && s'.threads.Keys == s.threads.Keys
    requires forall u: Tid, st :: u != t ==> HasStatus(s', u, st) == HasStatus(s, u, st)
    requires HasStatus(s', t, Ready)
    ensures WaitersOk(s') && DowningOk(s')
  {
    var w := s.semas[m].waiters;
    assert w == [t] + w[1..];
    assert NoDup(w[1..]) && t !in w[1..];
    assert t in w && HasStatus(s, t, Blocked) && s.downing[t] == m;
    hide NoDup, HasStatus;
    forall k, u | k in s'.semas && u in s'.semas[k].waiters ensures u != t && u in s.semas[k].waiters {
      if k == m {
        assert u in w[1..];
      }
    }
    assert WaitersOk(s');
    hide WaitersOk;
    WakeDowning(s, s', m, t);
  }

  lemma WakeDowning(s: State, s': State, m: nat, t: Tid)
    requires DowningOk(s) && m in s.semas && s.semas[m].waiters != [] && t == s.semas[m].waiters[0]
    requires s'.semas.Keys == s.semas.Keys && s'.semas[m].waiters == s.semas[m].waiters[1..]
    requires forall k :: k in s.semas && k != m ==> s'.semas[k] == s.semas[k]
    requires s'.downing == s.downing && s'.idle == s.idle && s'.threads.Keys == s.threads.Keys
    requires forall u: Tid, st :: u != t ==> HasStatus(s', u, st) == HasStatus(s, u, st)
    requires HasStatus(s', t, Ready)
    ensures DowningOk(s')
  {
    var w := s.semas[m].waiters;
    assert w == [t] + w[1..];
    forall u | u in s'.downing
      ensures u in s'.threads && u != s'.idle && s'.downing[u] in s'.semas
      ensures u in s'.semas[s'.downing[u]].waiters || s'.threads[u].status == Ready || s'.threads[u].status == Running
    {
      assert HasStatus(s, u, s.threads[u].status);
    }
  }

  lemma WakeTokens(s: State, s': State, m: nat, t: Tid)
    requires WaitersOk(s) && SemasOk(s) && m in s.semas && s.semas[m].value == 0
    requires s.semas[m].waiters != [] && t == s.semas[m].waiters[0]
    requires s'.semas == s.semas[m := s.semas[m].(value := 1, ups := s.semas[m].ups + 1,
               waiters := s.semas[m].waiters[1..])]
    requires s'.downing == s.downing
    ensures SemasOk(s')
  {
    var w := s.semas[m].waiters;
    assert w == [t] + w[1..] && t in w;
    OtherSemasStay(s, s', m);
    assert SemaOk(s, m) && Woken(s', m, t);
  }

  lemma UpKeeps(s: State, m: nat)
    requires Inv(s) && m in s.semas && s.semas[m].value == 0
    ensures Up(s, m).Ok? && Inv(Up(s, m).value)
  {
    if s.semas[m].waiters != [] {
      WakeKeeps(s, m);
    } else {
      var s' := Up(s, m).value;
      OtherSemasStay(s, s', m);
      assert SemaOk(s, m);
      assert forall u: Tid, st :: HasStatus(s', u, st) == HasStatus(s, u, st);
    }
  }

  // ---------------------------------------------------------------- runs

  /** Nothing that can happen breaks the invariant or fails an assertion, except a sema_up on a semaphore that
      has its token already, which always does. */
  lemma StepKeeps(s: State, e: Event)
    requires Inv(s) && Legal(s, e)
    ensures Step(s, e).Halt? <==> e.SemaUp? && s.semas[e.m].value == 1
    ensures Step(s, e).Ok? ==> Inv(Step(s, e).value)
  {
    hide Schedule, SemasOk, QueueOk, WaitersOk, DowningOk, QuantumOk;
    match e
    case TimerTick => TickKeeps(s);
    case YieldNow => YieldKeeps(s);
    case BlockAs(st) => BlockKeeps(s, st);
    case Wake(t) => WakeUpKeeps(s, t);
    case SemaDown(m) => if s.semas[m].value == 0 { WaitKeeps(s, m); } else { TakeKeeps(s, m); }
    case SemaUp(m) =>
      AtMostOneToken(s, m);
      if s.semas[m].value == 0 { UpKeeps(s, m); }
    case NewThread(t, prio) => StartKeeps(s, t, prio);
  }

  lemma AtMostOneToken(s: State, m: nat)
    requires Inv(s) && m in s.semas
    ensures s.semas[m].value <= 1
  {
    assert SemaOk(s, m);
  }

  lemma BlockKeeps(s: State, st: Status)
    requires Inv(s) && s.cur !in s.downing && Sleeping(st)
    ensures Block(s, st).Ok? && Inv(Block(s, st).value)
  {
    hide SemasOk, WaitersOk, DowningOk, QuantumOk, Schedule;
    SleepKeeps(s, st);
    ScheduleKeeps(SetStatus(s, s.cur, st));
  }

  lemma WakeUpKeeps(s: State, t: Tid)
    requires Inv(s) && t in s.threads && Sleeping(s.threads[t].status) && !OnWaiters(s, t)
    ensures Unblock(s, t).Ok? && Inv(Unblock(s, t).value)
  {
    UnblockKeeps(s, t);
  }

  /** thread_unblock on a sleeping thread keeps the invariant exactly if the thread is on no waiter list: its
      assertions do not exclude a waiter, whose tag would then be on two lists. */
  lemma UnblockExact(s: State, t: Tid)
    requires Inv(s) && t in s.threads && Sleeping(s.threads[t].status)
    ensures Unblock(s, t).Ok?
    ensures Inv(Unblock(s, t).value) <==> !OnWaiters(s, t)
    ensures OnWaiters(s, t) ==> OnWaiters(Unblock(s, t).value, t) && t in Unblock(s, t).value.ready
  {
    assert !HasStatus(s, t, Ready);
    if OnWaiters(s, t) {
      var s' := Unblock(s, t).value;
      var m :| m in s.semas && t in s.semas[m].waiters;
      assert m in s'.semas && t in s'.semas[m].waiters && !HasStatus(s', t, Blocked);
    } else {
      WakeUpKeeps(s, t);
    }
  }

  /** A run that gets there: the main thread waits for a semaphore without a token, the idle thread runs, and
      something calls thread_unblock on the main thread. Its tag is then on the ready list and on the waiter list. */
  lemma UnblockWaiterExample()
    ensures var s0 := State(0, 1, map[0 := Thread(Running, 31, 31, 0), 1 := Thread(Ready, 10, 10, 0)], [1],
                            map[0 := Sema(0, [], 0, 0, 0)], map[]);
            && Inv(s0) && Legal(s0, SemaDown(0)) && Down(s0, 0).Ok?
            && var s1 := Down(s0, 0).value;
            && Inv(s1) && s1.cur == 1 && OnWaiters(s1, 0) && 0 in s1.threads && Sleeping(s1.threads[0].status)
            && Unblock(s1, 0).Ok?
            && 0 in Unblock(s1, 0).value.ready && OnWaiters(Unblock(s1, 0).value, 0)
            && !Inv(Unblock(s1, 0).value)
  {
    var semas := map[0 := Sema(0, [], 0, 0, 0)];
    var s0 := State(0, 1, map[0 := Thread(Running, 31, 31, 0), 1 := Thread(Ready, 10, 10, 0)], [1], semas, map[]);
    InitialState(0, 1, semas);
    StepKeeps(s0, SemaDown(0));
    hide Inv;
    var s1 := Down(s0, 0).value;
    assert 0 in s1.semas && 0 in s1.semas[0].waiters;
    UnblockExact(s1, 0);
  }

  /** In every state of a run the running thread is on no list, and no tag is on two lists. */
  lemma EachTagOnOneList(s: State, t: Tid)
    requires Inv(s)
    ensures s.cur !in s.ready && !OnWaiters(s, s.cur)
    ensures t in s.ready ==> !OnWaiters(s, t)
    ensures forall m, k :: m in s.semas && k in s.semas && t in s.semas[m].waiters && t in s.semas[k].waiters ==> m == k
  {
    assert !HasStatus(s, s.cur, Ready);
    NotWaiting(s, s.cur);
    if t in s.ready {
      assert HasStatus(s, t, Ready);
      NotWaiting(s, t);
    }
  }

  /** A run, which ends early when the kernel stops. */
  function Run(s: State, es: seq<Event>): (r: Outcome<State>)
    decreases |es|
  {
    if es == [] then Ok(s)
    else
      match Step(s, es[0])
      case Halt => Halt
      case Ok(s1) => Run(s1, es[1..])
  }

  /** Every event of the run is legal where it occurs, as long as the kernel runs. */
  ghost predicate LegalRun(s: State, es: seq<Event>)
    decreases |es|
  {
    es == [] || (Legal(s, es[0]) && (Step(s, es[0]).Ok? ==> LegalRun(Step(s, es[0]).value, es[1..])))
  }

  lemma {:induction false} RunKeeps(s: State, es: seq<Event>)
    requires Inv(s) && LegalRun(s, es)
    ensures Run(s, es).Ok? ==> Inv(Run(s, es).value)
    ensures (forall i :: 0 <= i < |es| ==> !es[i].SemaUp?) ==> Run(s, es).Ok?
    decreases |es|
  {
    hide Inv, Step, Legal;
    if es != [] {
      StepKeeps(s, es[0]);
      if Step(s, es[0]).Ok? {
        RunKeeps(Step(s, es[0]).value, es[1..]);
      }
    }
  }

  /** Semaphores over whole runs: at most one token, no token lost or made, and a token that lies there while
      threads wait is for a woken thread that has not tried again yet; that thread is ready or running. */
  lemma SemaphoreRun(s: State, es: seq<Event>, s': State, m: nat)
    requires Inv(s) && LegalRun(s, es) && Run(s, es) == Ok(s') && m in s'.semas
    ensures var sm := s'.semas[m];
            && sm.value <= 1 && sm.value + sm.downs == sm.init + sm.ups
            && (sm.value == 1 && sm.waiters != [] ==>
                  exists t: Tid :: Woken(s', m, t) && (HasStatus(s', t, Ready) || HasStatus(s', t, Running)))
  {
    RunKeeps(s, es);
    assert SemaOk(s', m);
    if s'.semas[m].value == 1 && s'.semas[m].waiters != [] {
      var t: Tid :| Woken(s', m, t);
      assert HasStatus(s', t, s'.threads[t].status);
    }
  }

  /** kthread_init: the main thread runs, the idle thread is ready; semaphores start without waiters. */
  lemma InitialState(main: Tid, idle: Tid, semas: map<nat, Sema>)
    requires main != idle
    requires forall m :: m in semas ==>
               && semas[m].value == semas[m].init <= 1 && semas[m].waiters == []
               && semas[m].ups == semas[m].downs == 0
    ensures var threads := map[main := Thread(Running, 31, 31, 0), idle := Thread(Ready, 10, 10, 0)];
            Inv(State(main, idle, threads, [idle], semas, map[]))
  {
    var threads := map[main := Thread(Running, 31, 31, 0), idle := Thread(Ready, 10, 10, 0)];
    var s := State(main, idle, threads, [idle], semas, map[]);
    assert forall m :: m in s.semas ==> SemaOk(s, m);
  }

  /** sema_init with 0 or 1. */
  lemma SemaInitKeeps(s: State, m: nat, value: nat)
    requires Inv(s) && m !in s.semas && value <= 1
    ensures Inv(s.(semas := s.semas[m := Sema(value, [], value, 0, 0)]))
  {
    var s' := s.(semas := s.semas[m := Sema(value, [], value, 0, 0)]);
    assert forall u: Tid, st :: HasStatus(s', u, st) == HasStatus(s, u, st);
    hide HasStatus;
    forall k | k in s'.semas ensures SemaOk(s', k) {
      if k != m {
        assert SemaOk(s, k);
        if s.semas[k].value == 1 && s.semas[k].waiters != [] {
          var t: Tid :| Woken(s, k, t);
          assert Woken(s', k, t);
        }
      }
    }
  }
}
