/** How long a ready thread can be kept waiting. */
module Fairness {
  import opened Scheduler
  import opened SchedulerInvariant

  /** The event makes the running thread call schedule. */
  predicate CallsSchedule(s: State, e: Event) {
    match e
    case TimerTick => s.cur in s.threads && s.threads[s.cur].ticks == 0
    case YieldNow => true
    case BlockAs(_) => true
    case SemaDown(m) => m in s.semas && s.semas[m].value == 0
    case _ => false
  }

  /** The event puts a thread at the front of the ready list. */
  predicate Pushes(s: State, e: Event) {
    match e
    case Wake(_) => true
    case SemaUp(m) => m in s.semas && s.semas[m].value == 0 && s.semas[m].waiters != []
    case _ => false
  }

  function Bit(b: bool): nat {
    if b then 1 else 0
  }

  /** How many calls of schedule, pushes and timer interrupts a run has. */
  function Calls(s: State, es: seq<Event>): nat
    decreases |es|
  {
    if es == [] then 0
    else Bit(CallsSchedule(s, es[0])) + (if Step(s, es[0]).Ok? then Calls(Step(s, es[0]).value, es[1..]) else 0)
  }

  function PushCount(s: State, es: seq<Event>): nat
    decreases |es|
  {
    if es == [] then 0
    else Bit(Pushes(s, es[0])) + (if Step(s, es[0]).Ok? then PushCount(Step(s, es[0]).value, es[1..]) else 0)
  }

  function TickCount(es: seq<Event>): nat {
    if es == [] then 0 else Bit(es[0].TimerTick?) + TickCount(es[1..])
  }

  /** Thread `t` runs at some point of the run. */
  predicate Dispatched(s: State, es: seq<Event>, t: Tid)
    decreases |es|
  {
    s.cur == t || (es != [] && Step(s, es[0]).Ok? && Dispatched(Step(s, es[0]).value, es[1..], t))
  }

  // ---------------------------------------------------------------- one step

  /** What a call of schedule does to a ready list that is not empty. */
  lemma ScheduleShape(s: State)
    requires Core(s) && s.ready != []
    ensures Schedule(s).Ok?
    ensures var s' := Schedule(s).value;
            && s'.cur == s.ready[0]
            && s'.ready == s.ready[1..] + (if HasStatus(s, s.cur, Running) then [s.cur] else [])
            && (forall t :: t in s.threads && t != s.cur ==>
                  t in s'.threads && s'.threads[t].ticks == s.threads[t].ticks)
  {
    hide SemasOk, WaitersOk, DowningOk, QuantumOk, Dispatch;
    if HasStatus(s, s.cur, Running) {
      RequeueKeeps(s);
    }
    var s1 := Requeue(s).value;
    DispatchKeeps(s1);
    DispatchTicks(s1);
  }

  lemma DispatchTicks(s: State)
    requires Dispatch(s).Ok? && s.ready != []
    ensures forall t :: t in s.threads ==>
              t in Dispatch(s).value.threads && Dispatch(s).value.threads[t].ticks == s.threads[t].ticks
  {
  }

  /** The position of a ready thread: one step back for each call of schedule, one forward for each push. */
  ghost predicate Advances(s: State, e: Event, s': State, p: nat)
    requires p < |s.ready|
  {
    if CallsSchedule(s, e) then
      if p == 0 then s'.cur == s.ready[0]
      else p - 1 < |s'.ready| && s'.cur == s.ready[0] && s'.ready[..p] == s.ready[1..p + 1]
    else if Pushes(s, e) then |s'.ready| > p + 1 && s'.cur == s.cur && s'.ready[1..] == s.ready
    else p < |s'.ready| && s'.cur == s.cur && s'.ready[..p + 1] == s.ready[..p + 1]
  }

  /** Quanta change only for the running thread. */
  ghost predicate OthersTicks(s: State, s': State) {
    forall t :: t in s.threads && t != s.cur ==> t in s'.threads && s'.threads[t].ticks == s.threads[t].ticks
  }

  lemma TickAdvances(s: State, p: nat)
    requires Inv(s) && p < |s.ready|
    ensures Tick(s).Ok? && Advances(s, TimerTick, Tick(s).value, p) && OthersTicks(s, Tick(s).value)
  {
    var th := s.threads[s.cur];
    if th.ticks == 0 {
      var th1 := th.(elapsed := (th.elapsed + 1) % 0x1_0000_0000);
      hide Schedule, SemasOk, WaitersOk, DowningOk;
      CountKeeps(s, th1);
      ScheduleShape(s.(threads := s.threads[s.cur := th1]));
    }
  }

  lemma YieldAdvances(s: State, p: nat)
    requires Inv(s) && p < |s.ready|
    ensures Yield(s).Ok? && Advances(s, YieldNow, Yield(s).value, p) && OthersTicks(s, Yield(s).value)
  {
    hide Schedule, SemasOk, WaitersOk, DowningOk, QuantumOk;
    YieldedIsCore(s);
    ScheduleShape(Yielded(s));
  }

  lemma DownAdvances(s: State, m: nat, p: nat)
    requires Inv(s) && Legal(s, SemaDown(m)) && s.semas[m].value == 0 && p < |s.ready|
    ensures Down(s, m).Ok? && Advances(s, SemaDown(m), Down(s, m).value, p) && OthersTicks(s, Down(s, m).value)
  {
    hide Schedule, SemasOk, WaitersOk, DowningOk, QuantumOk, Down;
    WaitedIsCore(s, m);
    ScheduleShape(Waited(s, m));
  }

  lemma BlockAdvances(s: State, st: Status, p: nat)
    requires Inv(s) && Legal(s, BlockAs(st)) && p < |s.ready|
    ensures Block(s, st).Ok? && Advances(s, BlockAs(st), Block(s, st).value, p) && OthersTicks(s, Block(s, st).value)
  {
    hide Schedule, SemasOk, WaitersOk, DowningOk, QuantumOk;
    SleepKeeps(s, st);
    ScheduleShape(SetStatus(s, s.cur, st));
  }

  lemma StepAdvances(s: State, e: Event, p: nat)
    requires Inv(s) && Legal(s, e) && Step(s, e).Ok? && p < |s.ready|
    ensures Advances(s, e, Step(s, e).value, p) && OthersTicks(s, Step(s, e).value)
  {
    hide SemasOk, WaitersOk, DowningOk, QuantumOk, Schedule, Advances;
    assert s.cur in s.threads;
    match e
    case TimerTick => TickAdvances(s, p);
    case YieldNow => YieldAdvances(s, p);
    case BlockAs(st) => BlockAdvances(s, st, p);
    case SemaDown(m) => if s.semas[m].value == 0 { DownAdvances(s, m, p); } else { StaysAdvances(s, e, p); }
    case Wake(t) => StaysAdvances(s, e, p);
    case SemaUp(m) => StaysAdvances(s, e, p);
    case NewThread(t, prio) => StaysAdvances(s, e, p);
  }

  /** The events that do not call schedule. */
  lemma StaysAdvances(s: State, e: Event, p: nat)
    requires s.cur in s.threads && Legal(s, e) && Step(s, e).Ok? && p < |s.ready| && !CallsSchedule(s, e)
             && !e.TimerTick?
    ensures Advances(s, e, Step(s, e).value, p) && OthersTicks(s, Step(s, e).value)
  {
    hide Schedule;
  }

  // ---------------------------------------------------------------- the bounds

  /** A thread at position `p` of the ready list runs within p + 1 + u calls of schedule, where u counts the
      threads that are pushed in front in the meantime. */
  lemma {:induction false} BoundedDispatch(s: State, es: seq<Event>, p: nat)
    requires Inv(s) && LegalRun(s, es) && p < |s.ready|
    requires Calls(s, es) >= p + 1 + PushCount(s, es)
    ensures Dispatched(s, es, s.ready[p])
    decreases |es|
  {
    hide Inv, Step, Legal;
    if es != [] {
      StepKeeps(s, es[0]);
    }
    if es != [] && Step(s, es[0]).Ok? {
      StepAdvances(s, es[0], p);
      var s' := Step(s, es[0]).value;
      if CallsSchedule(s, es[0]) {
        if p > 0 {
          assert s'.ready[..p][p - 1] == s.ready[1..p + 1][p - 1];
          BoundedDispatch(s', es[1..], p - 1);
        }
      } else if Pushes(s, es[0]) {
        assert s'.ready[1..][p] == s.ready[p];
        BoundedDispatch(s', es[1..], p + 1);
      } else {
        assert s'.ready[..p + 1][p] == s.ready[..p + 1][p];
        BoundedDispatch(s', es[1..], p);
      }
    }
  }

  /** The timer interrupts that the threads of `l` can use up: each one more than its remaining ticks. */
  function Quanta(s: State, l: seq<Tid>): nat
    requires forall t :: t in l ==> t in s.threads
  {
    if l == [] then 0 else s.threads[l[0]].ticks + 1 + Quanta(s, l[1..])
  }

  /** The interrupts of the running thread and of those ahead of position `p`. */
  ghost function Budget(s: State, p: nat): nat
    requires QueueOk(s) && p <= |s.ready|
  {
    ReadyExist(s, p);
    s.threads[s.cur].ticks + 1 + Quanta(s, s.ready[..p])
  }

  lemma ReadyExist(s: State, p: nat)
    requires QueueOk(s) && p <= |s.ready|
    ensures forall t :: t in s.ready[..p] ==> t in s.threads && (t != s.cur || HasStatus(s, s.cur, Ready))
  {
    forall t | t in s.ready[..p] ensures HasStatus(s, t, Ready) {
      assert t in s.ready;
    }
  }

  lemma {:induction false} QuantaFrame(s: State, s': State, l: seq<Tid>)
    requires forall t :: t in l ==> t in s.threads && t in s'.threads && s'.threads[t].ticks == s.threads[t].ticks
    ensures Quanta(s', l) == Quanta(s, l)
  {
    if l != [] {
      QuantaFrame(s, s', l[1..]);
    }
  }

  lemma Shifted(q: seq<Tid>, r: seq<Tid>, p: nat)
    requires 0 < p < |q| && p - 1 < |r| && p <= |r| && r[..p] == q[1..p + 1]
    ensures r[p - 1] == q[p] && r[..p - 1] == q[..p][1..]
  {
    assert r[p - 1] == r[..p][p - 1] == q[1..p + 1][p - 1];
    assert r[..p - 1] == r[..p][..p - 1] == q[1..p + 1][..p - 1];
  }

  /** Without pushes, a step that does not dispatch the thread at `p` leaves it at p' with no larger budget, and a
      timer interrupt with a smaller one. */
  lemma StepBudget(s: State, e: Event, p: nat)
    requires Inv(s) && Legal(s, e) && Step(s, e).Ok? && p < |s.ready| && !Pushes(s, e)
    requires CallsSchedule(s, e) ==> p > 0
    ensures var s', p' := Step(s, e).value, p - Bit(CallsSchedule(s, e));
            && QueueOk(s') && p' < |s'.ready| && s'.ready[p'] == s.ready[p]
            && Budget(s', p') + Bit(e.TimerTick?) <= Budget(s, p)
  {
    hide WaitersOk, DowningOk, SemasOk, Step, Legal;
    StepKeeps(s, e);
    StepAdvances(s, e, p);
    var s' := Step(s, e).value;
    assert !HasStatus(s, s.cur, Ready);
    ReadyExist(s, p);
    if CallsSchedule(s, e) {
      Shifted(s.ready, s'.ready, p);
      QuantaFrame(s, s', s.ready[..p][1..]);
      assert s.ready[..p][0] == s.ready[0] == s'.cur;
      hide QueueOk;
      assert e.TimerTick? ==> s.threads[s.cur].ticks == 0;
    } else {
      assert s'.ready[..p + 1][p] == s.ready[..p + 1][p];
      assert s'.ready[..p] == s'.ready[..p + 1][..p] == s.ready[..p + 1][..p] == s.ready[..p];
      QuantaFrame(s, s', s.ready[..p]);
      hide QueueOk;
      CurTicks(s, e);
    }
  }

  /** An event that does not call schedule changes the quantum of the running thread only by a timer interrupt. */
  lemma CurTicks(s: State, e: Event)
    requires s.cur in s.threads && Step(s, e).Ok? && !CallsSchedule(s, e) && Legal(s, e)
    requires !Pushes(s, e)
    ensures s.cur in Step(s, e).value.threads
    ensures Step(s, e).value.threads[s.cur].ticks + Bit(e.TimerTick?) == s.threads[s.cur].ticks
  {
    hide Schedule;
  }

  /** Without pushes, a ready thread runs after at most as many timer interrupts as the running thread and those
      ahead of it have ticks left, plus one for each of them. */
  lemma {:induction false} BoundedTicks(s: State, es: seq<Event>, p: nat)
    requires Inv(s) && LegalRun(s, es) && Run(s, es).Ok? && p < |s.ready|
    requires PushCount(s, es) == 0 && TickCount(es) >= Budget(s, p)
    ensures Dispatched(s, es, s.ready[p])
    decreases |es|
  {
    hide QueueOk, QuantumOk, WaitersOk, DowningOk, SemasOk, Step, Legal;
    if es != [] {
      StepKeeps(s, es[0]);
      var s' := Step(s, es[0]).value;
      if CallsSchedule(s, es[0]) && p == 0 {
        StepAdvances(s, es[0], p);
      } else {
        StepBudget(s, es[0], p);
        BoundedTicks(s', es[1..], p - Bit(CallsSchedule(s, es[0])));
      }
    }
  }
}
