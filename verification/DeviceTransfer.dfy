/** DiskTransfer with the device: what the driver does reaches the disk only through the registers and the data port,
    and with interrupts at any time the transfer is the one on the flat disk. */
module DeviceTransfer {
  import opened Words
  import opened Disk
  import opened DiskCode
  import opened DiskHandshake
  import DiskTransfer

  /** The registers, and the command being carried out: its drive, its next byte, and how many bytes are left. */
  datatype Device = Device(regs: Registers, drive: int, pos: nat, left: nat, master: seq<Byte>, slave: seq<Byte>)

  function DiskOf(dev: Device, k: int): seq<Byte> {
    if k == 1 then dev.slave else dev.master
  }

  /** The disk `k` with other contents. */
  function WithDisk(dev: Device, k: int, d: seq<Byte>): Device {
    if k == 1 then dev.(slave := d) else dev.(master := d)
  }

  /** A transfer of `n` sectors from `lba` on, between drive `devNo` and the buffer at `at`. */
  datatype System = System(h: State, dev: Device, buf: seq<Byte>, devNo: int, lba: nat, n: nat, at: nat)

  /** How many sectors the chunks before this one had: secs_done. */
  function Done(y: System): int {
    y.n - y.h.left
  }

  /** select_sector; None when its assertion fails. */
  function SelectSector(y: System): Option<Device> {
    var lba := y.lba + Done(y);
    if !(0 <= lba <= MAX_LBA) then None
    else Some(y.dev.(regs := Encode(y.devNo, lba, ChunkSize(y.h.left) % 256)))
  }

  /** The device takes a command out of its registers; None when a sector does not exist, or the address is no
      lba. */
  function TakeCommand(dev: Device): Option<Device> {
    var c, k := Decode(dev.regs), DriveOf(dev.regs);
    if !LbaMode(dev.regs) || 512 * (c.lba + c.count) > |DiskOf(dev, k)| then None
    else Some(dev.(drive := k, pos := 512 * c.lba, left := 512 * c.count))
  }

  /** read_from_sector and write_to_sector: as many bytes as the driver wants pass the data port, from or to the next
      bytes of the command. */
  function TransferData(y: System): Option<System> {
    var size, at := TransferSize(ChunkSize(y.h.left) % 256), y.at + 512 * Done(y);
    var dev, d := y.dev, DiskOf(y.dev, y.dev.drive);
    if size > dev.left || dev.pos + size > |d| || at < 0 || at + size > |y.buf| then None
    else
      var dev' := dev.(pos := dev.pos + size, left := dev.left - size);
      if y.h.op == ReadSector then Some(y.(dev := dev', buf := Placed(y.buf, at, d[dev.pos..dev.pos + size])))
      else Some(y.(dev := WithDisk(dev', dev.drive, Placed(d, dev.pos, y.buf[at..at + size]))))
  }

  /** What an event does to the device and the buffer. */
  function Act(y: System, e: Event): Option<System> {
    if !e.DriverStep? then Some(y)
    else
      match y.h.pc
      case Select => (match SelectSector(y) case None => None case Some(dev) => Some(y.(dev := dev)))
      case Send => (match TakeCommand(y.dev) case None => None case Some(dev) => Some(y.(dev := dev)))
      case Transfer => TransferData(y)
      case _ => Some(y)
  }

  function Advance(y: System, e: Event): Option<System>
    requires Step(y.h, e).Ok?
  {
    match Act(y, e)
    case None => None
    case Some(y1) => Some(y1.(h := Step(y.h, e).state))
  }

  /** `z` is reached by the events, in one transfer. */
  predicate Goes(y: System, es: seq<Event>, z: System)
    decreases |es|
  {
    if es == [] then z == y
    else
      && !es[0].Begin? && Legal(y.h, es[0]) && Step(y.h, es[0]).Ok? && Advance(y, es[0]).Some?
      && Goes(Advance(y, es[0]).value, es[1..], z)
  }

  // ---------------------------------------------------------------- the flat disk underneath

  function Flat(y: System): DiskTransfer.System {
    DiskTransfer.System(y.h, DiskOf(y.dev, y.devNo), y.buf, y.lba, y.n, y.at)
  }

  /** The device has taken the command of this chunk, and its data is still to be moved. */
  predicate Taken(h: State) {
    WithData(h) || (h.op == ReadSector && h.pc == Down)
  }

  /** Registers and command are those of the chunk that the driving thread is at. */
  predicate Linked(y: System) {
    && 0 <= y.devNo <= 1 && y.h.left <= y.n
    && Completes(|DiskOf(y.dev, y.devNo)|, y.lba, y.n) && y.at + 512 * y.n <= |y.buf|
    && (Done(y) % 256 == 0 || y.h.left == 0)
    && (y.h.pc == Flag || y.h.pc == Send ==>
          y.lba + Done(y) <= MAX_LBA
          && y.dev.regs == Encode(y.devNo, y.lba + Done(y), ChunkSize(y.h.left) % 256))
    && (Taken(y.h) ==>
          y.dev.drive == y.devNo && y.dev.pos == 512 * (y.lba + Done(y)) && y.dev.left == 512 * ChunkSize(y.h.left))
  }

  /** Every chunk starts on the disk. */
  lemma ChunkFits(y: System)
    requires Linked(y) && y.h.left > 0
    ensures 0 <= y.lba + Done(y) <= MAX_LBA && 1 <= ChunkSize(y.h.left) <= y.h.left
    ensures 512 * (y.lba + Done(y) + ChunkSize(y.h.left)) <= |DiskOf(y.dev, y.devNo)|
  {
    assert Done(y) / 256 <= (y.n - 1) / 256;
  }

  lemma SelectLinked(y: System)
    requires Linked(y) && y.h.pc == Select && y.h.left > 0
    ensures SelectSector(y).Some? && Linked(y.(dev := SelectSector(y).value, h := y.h.(pc := Flag)))
    ensures DiskOf(SelectSector(y).value, y.devNo) == DiskOf(y.dev, y.devNo)
    ensures DiskOf(SelectSector(y).value, 1 - y.devNo) == DiskOf(y.dev, 1 - y.devNo)
  {
    hide Completes, Encode;
    ChunkFits(y);
  }

  lemma TakeLinked(y: System)
    requires Linked(y) && y.h.pc == Send && y.h.left > 0
    ensures TakeCommand(y.dev).Some?
    ensures var dev := TakeCommand(y.dev).value;
            && dev == y.dev.(drive := y.devNo, pos := 512 * (y.lba + Done(y)), left := 512 * ChunkSize(y.h.left))
  {
    ChunkFits(y);
    hide Completes, Encode, Decode, DriveOf, LbaMode;
    DecodeEncode(y.devNo, y.lba + Done(y), ChunkSize(y.h.left));
  }

  lemma FlatFits(y: System)
    requires Linked(y)
    ensures DiskTransfer.Fits(Flat(y))
  {
  }

  lemma ChunkSizes(y: System)
    requires Linked(y) && y.h.left > 0
    ensures var k := ChunkSize(y.h.left);
            && TransferSize(k % 256) == 512 * k && 0 <= Done(y) && Done(y) + k <= y.n
            && 512 * (y.lba + Done(y) + k) <= |DiskOf(y.dev, y.devNo)|
  {
    ChunkFits(y);
    hide Completes;
  }

  /** The device holds the command of this chunk. */
  predicate Ready(y: System) {
    var k := ChunkSize(y.h.left);
    && 0 <= y.devNo <= 1 && 0 <= Done(y) && Done(y) + k <= y.n
    && y.dev.drive == y.devNo && y.dev.pos == 512 * (y.lba + Done(y)) && y.dev.left == 512 * k
    && 512 * (y.lba + Done(y) + k) <= |DiskOf(y.dev, y.devNo)| && y.at + 512 * y.n <= |y.buf|
    && TransferSize(k % 256) == 512 * k
  }

  lemma IsReady(y: System)
    requires Linked(y) && y.h.pc == Transfer && y.h.left > 0
    ensures Ready(y)
  {
    ChunkSizes(y);
    hide Completes, Encode, ChunkSize, TransferSize;
  }

  /** Moving the bytes of the command is what the flat disk does. */
  lemma MoveReady(y: System)
    requires Ready(y) && DiskTransfer.Fits(Flat(y))
    ensures TransferData(y).Some?
    ensures var y' := TransferData(y).value;
            && Flat(y') == DiskTransfer.Move(Flat(y)) && y' == y.(dev := y'.dev, buf := y'.buf)
            && |DiskOf(y'.dev, y.devNo)| == |DiskOf(y.dev, y.devNo)| && |y'.buf| == |y.buf|
            && DiskOf(y'.dev, 1 - y.devNo) == DiskOf(y.dev, 1 - y.devNo)
  {
    hide TransferSize, ChunkSize, Placed, WriteSectors;
    var k, d, p, at := ChunkSize(y.h.left), DiskOf(y.dev, y.devNo), y.lba + Done(y), y.at + 512 * Done(y);
    assert d[512 * p..512 * p + 512 * k] == ReadSectors(d, p, k);
    PlacedSectors(d, p, y.buf[at..at + 512 * k]);
  }

  lemma PlacedSectors(d: seq<Byte>, lba: nat, x: seq<Byte>)
    requires 512 * lba + |x| <= |d|
    ensures Placed(d, 512 * lba, x) == WriteSectors(d, lba, x)
  {
  }

  lemma AdvanceLinked(y: System, e: Event)
    requires Linked(y) && Inv(y.h) && !e.Begin? && Legal(y.h, e) && Step(y.h, e).Ok?
    ensures Advance(y, e).Some? && DiskTransfer.Fits(Flat(y))
    ensures var y' := Advance(y, e).value;
            && Linked(y') && y' == y.(h := y'.h, dev := y'.dev, buf := y'.buf)
            && Flat(y') == DiskTransfer.Advance(Flat(y), e)
            && DiskOf(y'.dev, 1 - y.devNo) == DiskOf(y.dev, 1 - y.devNo)
  {
    hide NumChunks, Completes, Encode, SelectSector, TakeCommand, TransferData, Ready, DiskTransfer.Fits,
         DiskTransfer.Move;
    FlatFits(y);
    if e.DriverStep? && y.h.pc == Select {
      SelectLinked(y);
    } else if e.DriverStep? && y.h.pc == Send {
      TakeLinked(y);
    } else if e.DriverStep? && y.h.pc == Transfer {
      IsReady(y);
      MoveReady(y);
    }
  }

  // ---------------------------------------------------------------- whole transfers

  lemma {:induction false} GoesLinked(y: System, es: seq<Event>, z: System)
    requires Linked(y) && Inv(y.h) && Goes(y, es, z)
    ensures Linked(z) && Inv(z.h) && DiskTransfer.Goes(Flat(y), es, Flat(z)) && z ==
              y.(h := z.h, dev := z.dev, buf := z.buf)
    ensures DiskOf(z.dev, 1 - y.devNo) == DiskOf(y.dev, 1 - y.devNo)
    decreases |es|
  {
    hide Linked, Inv, Step, Legal, Act, DiskTransfer.Fits;
    if es != [] {
      StepKeeps(y.h, es[0]);
      AdvanceLinked(y, es[0]);
      GoesLinked(Advance(y, es[0]).value, es[1..], z);
    }
  }

  lemma BeginLinked(h: State, op: Op, y: System)
    requires Inv(h) && h.pc == Idle && y.n > 0 && 0 <= y.devNo <= 1 && y.h == Step(h, Begin(op, y.n)).state
    requires Completes(|DiskOf(y.dev, y.devNo)|, y.lba, y.n) && y.at + 512 * y.n <= |y.buf|
    ensures Linked(y) && Inv(y.h)
  {
    hide Completes, Encode, NumChunks;
    StepKeeps(h, Begin(op, y.n));
  }

  /** A transfer that is on the disk, from every reachable state of the channel, whatever its registers hold, with
      interrupts at any time: the assertion of select_sector holds for every chunk, the device has all sectors that its
      registers ask for, and the data port always has the bytes that the driver moves. When the transfer is over, a
      read has put exactly the sectors into the buffer, and a write has put exactly the buffer onto the drive; the
      other drive is as before. */
  lemma TransferDelivers(hs: seq<Event>, h: State, op: Op, y: System, es: seq<Event>, z: System)
    requires Run(Boot(), hs, h) && h.pc == Idle && y.n > 0 && 0 <= y.devNo <= 1 && y.at + 512 * y.n <= |y.buf|
    requires Completes(|DiskOf(y.dev, y.devNo)|, y.lba, y.n)
    requires y.h == Step(h, Begin(op, y.n)).state && Goes(y, es, z)
    ensures forall e: Event :: !e.Begin? && Legal(z.h, e) && Step(z.h, e).Ok? ==> Advance(z, e).Some?
    ensures DiskOf(z.dev, 1 - y.devNo) == DiskOf(y.dev, 1 - y.devNo)
    ensures z.h.pc == Idle ==>
              var d, d' := DiskOf(y.dev, y.devNo), DiskOf(z.dev, y.devNo);
              && OnDisk(d, y.lba, y.n)
              && (op == ReadSector ==> d' == d && z.buf == Placed(y.buf, y.at, ReadSectors(d, y.lba, y.n)))
              && (op == WriteSector ==>
                    z.buf == y.buf && d' == WriteSectors(d, y.lba, y.buf[y.at..y.at + 512 * y.n]))
  {
    hide Goes, Run, Inv, Linked, Act, Legal, DiskTransfer.Goes, LastChunk;
    Reached(hs, h);
    BeginLinked(h, op, y);
    GoesLinked(y, es, z);
    forall e: Event | !e.Begin? && Legal(z.h, e) && Step(z.h, e).Ok? ensures Advance(z, e).Some? {
      AdvanceLinked(z, e);
    }
    if z.h.pc == Idle {
      DiskTransfer.TransferDelivers(hs, h, op, Flat(y), es, Flat(z));
    }
  }
}
