/** The interrupt handshake of os/kernel/ide.c: the thread that holds the channel's lock, and interrupts at any
    time. */
module DiskHandshake {
  import opened Disk

  /** Where the driving thread is: between transfers, or before the step of the same name in the chunk loop. Down is
      the loop of sema_down. */
  datatype Pc = Idle | Select | Flag | Send | Down | Busy | Transfer

  const DRIVER: nat := 0

  /** The channel: what the driving thread does and how many sectors it has left, expecting_intr, the semaphore
      disk_done, and whether the thread is blocked. The numbers record the history: commands sent, completed
      sema_ups and sema_downs, chunks of data moved, and the commands there will be when the transfer is over. */
  datatype State = State(pc: Pc, op: Op, left: nat, expecting: bool, value: nat, waiters: seq<nat>, asleep: bool,
                         commands: nat, ups: nat, downs: nat, moved: nat, target: nat)

  /** A failed assertion or list check, or the panic after busy_wait has failed. */
  datatype Fate = Ok(state: State) | AssertFails | DeviceError

  function Boot(): State {
    State(Idle, ReadSector, 0, false, 0, [], false, 0, 0, 0, 0, 0)
  }

  function NumChunks(n: nat): nat {
    (n + 255) / 256
  }

  lemma NumChunksIs(lba: int, n: nat)
    ensures NumChunks(n) == |Chunks(lba, n)|
  {
    ChunksPartition(lba, n, lba);
  }

  /** The end of a round of the chunk loop. */
  function EndChunk(s: State): State {
    var left := s.left - ChunkSize(s.left);
    s.(left := left, pc := if left == 0 then Idle else Select)
  }

  /** One pass of sema_down, with interrupts off. */
  function TakeOrSleep(s: State): Fate {
    if s.value == 0 then
      if DRIVER in s.waiters then AssertFails else Ok(s.(waiters := s.waiters + [DRIVER], asleep := true))
    else if s.value != 1 then AssertFails
    else
      var s1 := s.(value := 0, downs := s.downs + 1);
      Ok(if s.op == ReadSector then s1.(pc := Busy) else EndChunk(s1))
  }

  /** The next step of the driving thread; `ready` is what busy_wait finds. A read waits for the interrupt before it
      takes the data, a write after it has given them. */
  function Drive(s: State, ready: bool): Fate {
    match s.pc
    case Idle => Ok(s)
    case Select => Ok(s.(pc := Flag))
    case Flag => Ok(s.(pc := Send, expecting := true))
    case Send => Ok(s.(pc := if s.op == ReadSector then Down else Busy, commands := s.commands + 1))
    case Down => TakeOrSleep(s)
    case Busy => if ready then Ok(s.(pc := Transfer)) else DeviceError
    case Transfer =>
      var s1 := s.(moved := s.moved + 1);
      Ok(if s.op == ReadSector then EndChunk(s1) else s1.(pc := Down))
  }

  /** hd_intr_handler, with sema_up and thread_unblock. */
  function Interrupt(s: State): Fate {
    if !s.expecting then Ok(s)
    else if s.value != 0 then AssertFails
    else
      var s1 := s.(expecting := false, value := 1, ups := s.ups + 1);
      if s.waiters == [] then Ok(s1)
      else if s.waiters[0] != DRIVER || !s.asleep then AssertFails
      else Ok(s1.(waiters := s.waiters[1..], asleep := false))
  }

  datatype Event = Begin(op: Op, n: nat) | DriverStep(ready: bool) | Intr

  predicate Legal(s: State, e: Event) {
    match e
    case Begin(op, n) => s.pc == Idle && n > 0
    case DriverStep(_) => s.pc != Idle && !s.asleep
    case Intr => true
  }

  function Step(s: State, e: Event): Fate {
    match e
    case Begin(op, n) => Ok(s.(pc := Select, op := op, left := n, target := s.commands + NumChunks(n)))
    case DriverStep(ready) => Drive(s, ready)
    case Intr => Interrupt(s)
  }

  /** `s'` is reached from `s` by the events. */
  predicate Run(s: State, es: seq<Event>, s': State)
    decreases |es|
  {
    if es == [] then s' == s
    else
      Legal(s, es[0]) && Step(s, es[0]).Ok? && Run(Step(s, es[0]).state, es[1..], s')
  }

  // ---------------------------------------------------------------- the invariant

  /** A command has been announced and its sema_down is not over. */
  predicate InFlight(s: State) {
    s.pc.Send? || s.pc.Down? || (s.op == WriteSector && WithData(s))
  }

  /** The thread waits for the device to be ready, or moves the data. */
  predicate WithData(s: State) {
    s.pc.Busy? || s.pc.Transfer?
  }

  function One(b: bool): nat {
    if b then 1 else 0
  }

  ghost predicate Inv(s: State) {
    // The token of the command in flight is the interrupt to come, or the semaphore's value.
    && One(s.expecting) + s.value == One(InFlight(s))
    && s.waiters == (if s.asleep then [DRIVER] else [])
    && (s.asleep ==> s.pc.Down? && s.value == 0)
    && (s.pc.Idle? <==> s.left == 0)
    // Every announced command has had its interrupt, except the one that is expected.
    && s.ups + One(s.expecting) == s.commands + One(s.pc.Send?)
    && s.downs + s.value == s.ups
    && s.moved + One(WithData(s) || (s.op == ReadSector && s.pc.Down?)) == s.commands
    && s.commands + NumChunks(s.left) == s.target + One(s.pc.Down? || WithData(s))
  }

  lemma LastChunkOfMany(n: nat)
    requires n > 0
    ensures NumChunks(n) == 1 + NumChunks(n - ChunkSize(n)) && NumChunks(0) == 0
    ensures 0 <= n - ChunkSize(n) < n
  {
  }

  lemma StepKeeps(s: State, e: Event)
    requires Inv(s) && Legal(s, e)
    ensures Step(s, e) != AssertFails
    ensures Step(s, e).Ok? ==> Inv(Step(s, e).state)
  {
    hide NumChunks, ChunkSize;
    if s.left > 0 {
      LastChunkOfMany(s.left);
    }
    if e.Begin? {
      LastChunkOfMany(e.n);
      NoChunks();
    }
  }

  lemma NoChunks()
    ensures NumChunks(0) == 0
  {
  }

  /** In every run no assertion of sema_up, sema_down or thread_unblock fails, whenever the interrupts come. */
  lemma {:induction false} RunKeeps(s: State, es: seq<Event>, s': State, e: Event)
    requires Inv(s) && Run(s, es, s') && Legal(s', e)
    ensures Inv(s') && Step(s', e) != AssertFails
    decreases |es|
  {
    hide Step, Legal, Inv;
    if es == [] {
      StepKeeps(s', e);
    } else {
      StepKeeps(s, es[0]);
      RunKeeps(Step(s, es[0]).state, es[1..], s', e);
    }
  }

  lemma BootInv()
    ensures Inv(Boot())
  {
    hide Inv;
    IdleInv(ReadSector);
  }

  lemma IdleInv(op: Op)
    ensures Inv(State(Idle, op, 0, false, 0, [], false, 0, 0, 0, 0, 0))
  {
    hide NumChunks;
    NoChunks();
  }

  // ---------------------------------------------------------------- what it means

  lemma {:induction false} Reached(es: seq<Event>, s: State)
    requires Run(Boot(), es, s)
    ensures Inv(s)
  {
    hide Inv;
    BootInv();
    RunKeeps(Boot(), es, s, Intr);
  }

  /** While an interrupt is expected the semaphore is 0. Every round of the chunk loop begins with no interrupt
      expected, the semaphore 0 and nobody waiting, and all commands so far have had one interrupt and one
      sema_down each. */
  lemma ChunksStartClean(es: seq<Event>, s: State)
    requires Run(Boot(), es, s)
    ensures s.expecting ==> s.value == 0
    ensures s.pc.Idle? || s.pc.Select? || s.pc.Flag? ==>
              && !s.expecting && s.value == 0 && s.waiters == []
              && s.ups == s.commands && s.downs == s.commands && s.moved == s.commands
  {
    Reached(es, s);
  }

  /** At most one sema_up per command, and not before the command is announced; a read takes its data only after
      an interrupt since then. */
  lemma OneUpPerCommand(es: seq<Event>, s: State)
    requires Run(Boot(), es, s)
    ensures s.ups <= s.commands + One(s.pc.Send?) && s.commands <= s.ups + 1 && s.downs <= s.ups <= s.downs + 1
    ensures s.op == ReadSector && WithData(s) ==> s.ups == s.commands && s.downs == s.commands
  {
    Reached(es, s);
  }

  /** cmd_out sets the flag before it sends the command. A read that sends its command gets to its data without another
      interrupt exactly when one has come since the flag was set, and sleeps in sema_down otherwise. */
  lemma EarlyInterrupt(es: seq<Event>, s: State)
    requires Run(Boot(), es, s) && s.pc == Send && s.op == ReadSector
    ensures var down := Drive(s, true).state;
            && down.pc == Down && Legal(down, DriverStep(true)) && Drive(down, true).Ok?
            && var t := Drive(down, true).state;
            if s.ups == s.commands + 1 then t.pc == Busy && !t.asleep
            else s.expecting && s.ups == s.commands && t.pc == Down && t.asleep
  {
    Reached(es, s);
  }

  /** The data moves only behind a busy_wait that found the device ready, directly before it, in reads and in writes. */
  lemma {:induction false} ReadyBeforeData(es: seq<Event>, s: State)
    requires Run(Boot(), es, s) && s.pc == Transfer
    ensures exists i, t :: 0 <= i < |es| && Run(Boot(), es[..i], t) && t.pc == Busy && es[i] == DriverStep(true)
                           && (forall k :: i < k < |es| ==> es[k] == Intr)
                           && Drive(t, false) == DeviceError
  {
    var i, t := LastReady(Boot(), es, s);
  }

  /** The last step before the state `s` at Transfer, if the run has not begun there. */
  lemma {:induction false} LastReady(s0: State, es: seq<Event>, s: State) returns (i: int, t: State)
    requires Run(s0, es, s) && s.pc == Transfer && s0.pc != Transfer
    ensures 0 <= i < |es| && Run(s0, es[..i], t) && t.pc == Busy && es[i] == DriverStep(true)
    ensures forall k :: i < k < |es| ==> es[k] == Intr
    decreases |es|
  {
    var n := |es| - 1;
    var r := SplitRun(s0, es, s, n);
    assert es[n..] == [es[n]];
    if es[n] == Intr {
      assert r.pc == Transfer;
      var j, u := LastReady(s0, es[..n], r);
      assert es[..n][..j] == es[..j] && es[..n][j] == es[j];
      i, t := j, u;
    } else {
      i, t := n, r;
    }
  }

  lemma {:induction false} SplitRun(s: State, es: seq<Event>, s': State, n: nat) returns (r: State)
    requires n <= |es| && Run(s, es, s')
    ensures Run(s, es[..n], r) && Run(r, es[n..], s')
    decreases n
  {
    hide Step, Legal;
    if n == 0 {
      r := s;
      assert es[0..] == es;
    } else {
      r := SplitRun(Step(s, es[0]).state, es[1..], s', n - 1);
      assert es[1..][..n - 1] == es[..n][1..] && es[1..][n - 1..] == es[n..];
    }
  }

  /** A run in which the only interrupt comes between the flag and the command. */
  lemma EarlyInterruptExample()
    ensures exists t :: Run(Boot(), EarlyRun(), t) && t.op == ReadSector && t.pc == Transfer && t.commands == 1
  {
    hide Run;
    var t := State(Transfer, ReadSector, 1, false, 0, [], false, 1, 1, 1, 0, 1);
    var go := DriverStep(true);
    var s1 := Boot().(pc := Select, left := 1, target := 1);
    var s2, s3 := s1.(pc := Flag), s1.(pc := Send, expecting := true);
    var s4 := s3.(expecting := false, value := 1, ups := 1);
    var s5 := s4.(pc := Down, commands := 1);
    var s6 := s5.(pc := Busy, value := 0, downs := 1);
    assert [go] + [] == [go] && [go] + [go] == [go, go] && [go] + [go, go] == [go, go, go];
    assert [Intr] + [go, go, go] == [Intr, go, go, go];
    assert [go] + [Intr, go, go, go] == [go, Intr, go, go, go];
    assert [go] + [go, Intr, go, go, go] == [go, go, Intr, go, go, go];
    assert [Begin(ReadSector, 1)] + [go, go, Intr, go, go, go] == EarlyRun();
    RunNothing(t);
    RunOne(s6, go, [], t);
    RunOne(s5, go, [go], t);
    RunOne(s4, go, [go, go], t);
    RunOne(s3, Intr, [go, go, go], t);
    RunOne(s2, go, [Intr, go, go, go], t);
    RunOne(s1, go, [go, Intr, go, go, go], t);
    RunOne(Boot(), Begin(ReadSector, 1), [go, go, Intr, go, go, go], t);
  }

  lemma RunNothing(s: State)
    ensures Run(s, [], s)
  {
  }

  lemma RunOne(s: State, e: Event, es: seq<Event>, s': State)
    requires Legal(s, e) && Step(s, e).Ok? && Run(Step(s, e).state, es, s')
    ensures Run(s, [e] + es, s')
  {
    hide Step, Legal;
    assert ([e] + es)[1..] == es;
  }

  function EarlyRun(): seq<Event> {
    var go := DriverStep(true);
    [Begin(ReadSector, 1), go, go, Intr, go, go, go]
  }

  /** A transfer of `n` sectors, run to its end, has sent as many commands as it has chunks, moved the data of each
      once, and used one interrupt and one sema_down for each. */
  lemma {:induction false} TransferExact(es: seq<Event>, s: State, op: Op, lba: int, n: nat, fs: seq<Event>, t: State)
    requires Run(Boot(), es, s) && s.pc == Idle && n > 0
    requires Run(Step(s, Begin(op, n)).state, fs, t) && t.pc == Idle && NoBegin(fs)
    ensures var k := |Chunks(lba, n)|;
            && t.commands == s.commands + k && t.moved == s.moved + k
            && t.ups == s.ups + k && t.downs == s.downs + k
  {
    hide Inv, NumChunks, Chunks;
    Reached(es, s);
    var s1 := Step(s, Begin(op, n)).state;
    StepKeeps(s, Begin(op, n));
    RunKeeps(s1, fs, t, Intr);
    TargetStays(s1, fs, t);
    NumChunksIs(lba, n);
    IdleExact(s);
    IdleExact(t);
  }

  lemma IdleExact(s: State)
    requires Inv(s) && s.pc == Idle
    ensures s.commands == s.target && s.ups == s.commands && s.downs == s.commands && s.moved == s.commands
  {
  }

  predicate NoBegin(es: seq<Event>) {
    forall i :: 0 <= i < |es| ==> !es[i].Begin?
  }

  lemma {:induction false} TargetStays(s: State, es: seq<Event>, t: State)
    requires Run(s, es, t) && NoBegin(es)
    ensures t.target == s.target
    decreases |es|
  {
    if es != [] {
      TargetStays(Step(s, es[0]).state, es[1..], t);
    }
  }

  /** No wakeup is lost: a sleeping driver always has an interrupt to come, which makes it ready with the token there
      to be taken. */
  lemma InterruptWakes(es: seq<Event>, s: State)
    requires Run(Boot(), es, s) && s.asleep
    ensures s.expecting && Interrupt(s).Ok?
    ensures var t := Interrupt(s).state; !t.asleep && t.value == 1 && !t.expecting && t.pc == Down
    ensures var u := Drive(Interrupt(s).state, true); u.Ok? && u.state.downs == s.downs + 1 && u.state.pc != Down
  {
    Reached(es, s);
  }

  /** A repeated interrupt changes nothing. */
  lemma RepeatedInterrupt(es: seq<Event>, s: State)
    requires Run(Boot(), es, s)
    ensures Interrupt(s).Ok? && Interrupt(Interrupt(s).state) == Interrupt(s)
  {
    Reached(es, s);
  }

  // ---------------------------------------------------------------- the transfer ends

  /** How far the thread still has to go in this round. */
  function Rank(s: State): nat {
    match s.pc
    case Idle => 0
    case Select => 9
    case Flag => 8
    case Send => 7
    case Busy => if s.op == ReadSector then 2 else 6
    case Transfer => if s.op == ReadSector then 1 else 5
    case Down => (if s.op == ReadSector then 3 else 1) + (if s.value == 1 then 0 else if s.asleep then 1 else 2)
  }

  /** A bound on the steps of the driving thread up to the end of the transfer. */
  function Work(s: State): int {
    if s.pc == Idle then 0 else 9 * (NumChunks(s.left) - 1) + Rank(s)
  }

  lemma WorkSteps(s: State, e: Event)
    requires Inv(s) && Legal(s, e) && !e.Begin? && Step(s, e).Ok?
    ensures 0 <= Work(Step(s, e).state) <= Work(s) - One(e.DriverStep?) - One(e.Intr? && s.asleep)
  {
    hide NumChunks, ChunkSize;
    if s.left > 0 {
      LastChunkOfMany(s.left);
      MoreChunks(s.left - ChunkSize(s.left));
    }
  }

  lemma MoreChunks(n: nat)
    ensures n > 0 ==> NumChunks(n) >= 1
  {
  }

  /** The steps of the driving thread in a run. */
  function DriverSteps(es: seq<Event>): nat {
    if es == [] then 0 else One(es[0].DriverStep?) + DriverSteps(es[1..])
  }

  lemma {:induction false} WorkBounds(s: State, es: seq<Event>, t: State)
    requires Inv(s) && Run(s, es, t) && NoBegin(es)
    ensures DriverSteps(es) <= Work(s) - Work(t) && 0 <= Work(t)
    decreases |es|
  {
    hide Inv, Step, Legal, Work;
    if es == [] {
      WorkPositive(s);
    } else {
      StepKeeps(s, es[0]);
      WorkSteps(s, es[0]);
      WorkBounds(Step(s, es[0]).state, es[1..], t);
    }
  }

  lemma WorkPositive(s: State)
    requires Inv(s)
    ensures 0 <= Work(s) && (s.pc.Idle? <==> Work(s) == 0)
  {
    hide NumChunks;
    if s.left > 0 {
      MoreChunks(s.left);
    }
  }

  /** A transfer of `n` sectors takes at most 9 steps of the driving thread for every chunk, in any run and with any
      number of interrupts; and before its end the thread can always go on, unless it sleeps, when the interrupt that
      is still to come wakes it. So it ends if every command is answered by an interrupt. */
  lemma TransferEnds(es: seq<Event>, s: State, op: Op, n: nat, fs: seq<Event>, t: State)
    requires Run(Boot(), es, s) && s.pc == Idle && n > 0
    requires Run(Step(s, Begin(op, n)).state, fs, t) && NoBegin(fs)
    ensures DriverSteps(fs) <= 9 * NumChunks(n)
    ensures t.pc != Idle && !t.asleep ==> Drive(t, true).Ok?
    ensures t.asleep ==> t.expecting && Interrupt(t).Ok? && !Interrupt(t).state.asleep
  {
    hide NumChunks, Inv, Run, Work, NoBegin, DriverSteps, Drive, Interrupt;
    Reached(es, s);
    var s1 := Step(s, Begin(op, n)).state;
    StepKeeps(s, Begin(op, n));
    BeginWork(s, op, n);
    WorkBounds(s1, fs, t);
    RunKeeps(s1, fs, t, Intr);
    CanGoOn(t);
  }

  lemma BeginWork(s: State, op: Op, n: nat)
    requires n > 0
    ensures Work(s.(pc := Select, op := op, left := n, target := s.commands + NumChunks(n))) == 9 * NumChunks(n)
  {
    hide NumChunks;
  }

  lemma CanGoOn(t: State)
    requires Inv(t)
    ensures t.pc != Idle && !t.asleep ==> Drive(t, true).Ok?
    ensures t.asleep ==> t.expecting && Interrupt(t).Ok? && !Interrupt(t).state.asleep
  {
    hide NumChunks;
  }
}
