/** The handshake of DiskHandshake together with the data that it moves: a transfer that is interrupted at any time does
    what the flat disk does. */
module DiskTransfer {
  import opened Disk
  import opened DiskCode
  import opened DiskHandshake

  /** A transfer of `n` sectors from `lba` on, between the disk and the buffer at `at`. */
  datatype System = System(h: State, disk: seq<Byte>, buf: seq<Byte>, lba: nat, n: nat, at: nat)

  /** The chunk that the driving thread is at. */
  function First(y: System): int {
    y.n - y.h.left
  }

  predicate Fits(y: System) {
    y.h.left <= y.n && OnDisk(y.disk, y.lba, y.n) && y.at + 512 * y.n <= |y.buf|
  }

  /** The data of one chunk: read_from_sector or write_to_sector. */
  function Move(y: System): System
    requires Fits(y)
  {
    var at, k := y.at + 512 * First(y), ChunkSize(y.h.left);
    if y.h.op == ReadSector then y.(buf := Placed(y.buf, at, ReadSectors(y.disk, y.lba + First(y), k)))
    else y.(disk := WriteSectors(y.disk, y.lba + First(y), y.buf[at..at + 512 * k]))
  }

  /** An event of the handshake; the step at Transfer moves the data. */
  function Advance(y: System, e: Event): System
    requires Fits(y) && Step(y.h, e).Ok?
  {
    (if e.DriverStep? && y.h.pc == Transfer then Move(y) else y).(h := Step(y.h, e).state)
  }

  /** `z` is reached by the events, in one transfer. */
  predicate Goes(y: System, es: seq<Event>, z: System)
    decreases |es|
  {
    if es == [] then z == y
    else
      && Fits(y) && !es[0].Begin? && Legal(y.h, es[0]) && Step(y.h, es[0]).Ok?
      && Goes(Advance(y, es[0]), es[1..], z)
  }

  /** Sectors whose data has been moved: for a write, the chunk is moved before its interrupt is waited for. */
  function SectorsMoved(h: State, n: nat): int {
    n - h.left + if h.op == WriteSector && h.pc == Down then ChunkSize(h.left) else 0
  }

  /** `d` and `b` are the disk and the buffer at the beginning; the data of `done` sectors has been moved. */
  ghost predicate DataMoved(y: System, done: int, d: seq<Byte>, b: seq<Byte>) {
    && OnDisk(d, y.lba, y.n) && y.at + 512 * y.n <= |b| && |y.disk| == |d| && |y.buf| == |b| && 0 <= done
    && (if y.h.op == ReadSector then y.disk == d && ReadSoFar(d, b, y.buf, y.at, y.lba, done)
        else y.buf == b && WriteSoFar(d, b, y.disk, y.at, y.lba, done))
  }

  ghost predicate Moved(y: System, d: seq<Byte>, b: seq<Byte>) {
    Inv(y.h) && y.h.left <= y.n && DataMoved(y, SectorsMoved(y.h, y.n), d, b)
  }

  lemma MovedFits(y: System, done: int, d: seq<Byte>, b: seq<Byte>)
    requires DataMoved(y, done, d, b) && y.h.left <= y.n
    ensures Fits(y)
  {
  }

  /** The state of the handshake does not matter for the data, except for the kind of the transfer. */
  lemma SameData(y: System, done: int, d: seq<Byte>, b: seq<Byte>, h: State)
    requires DataMoved(y, done, d, b) && h.op == y.h.op
    ensures DataMoved(y.(h := h), done, d, b)
  {
    hide ReadSoFar, WriteSoFar;
  }

  /** The sectors are counted where the data is moved. */
  lemma CountedWhenMoved(h: State, e: Event, n: nat)
    requires Inv(h) && !e.Begin? && Legal(h, e) && Step(h, e).Ok?
    ensures var h' := Step(h, e).state;
            && h'.op == h.op && h'.left <= h.left
            && SectorsMoved(h', n) ==
               SectorsMoved(h, n) + if e.DriverStep? && h.pc == Transfer then ChunkSize(h.left) else 0
    ensures h.pc == Transfer ==> SectorsMoved(h, n) == n - h.left && h.left > 0
  {
    hide NumChunks;
    if h.left > 0 {
      LastChunkOfMany(h.left);
    }
  }

  lemma AdvanceKeeps(y: System, e: Event, d: seq<Byte>, b: seq<Byte>)
    requires Moved(y, d, b) && !e.Begin? && Legal(y.h, e) && Step(y.h, e).Ok?
    ensures Fits(y) && Moved(Advance(y, e), d, b)
  {
    hide Inv, Step, Legal, SectorsMoved, DataMoved, ChunkSize, Move, Fits;
    StepKeeps(y.h, e);
    CountedWhenMoved(y.h, e, y.n);
    MovedFits(y, SectorsMoved(y.h, y.n), d, b);
    var h := Step(y.h, e).state;
    if e.DriverStep? && y.h.pc == Transfer {
      MoveKeeps(y, d, b);
      SameData(Move(y), y.n - y.h.left + ChunkSize(y.h.left), d, b, h);
    } else {
      SameData(y, SectorsMoved(y.h, y.n), d, b, h);
    }
  }

  lemma ChunkFits(n: nat)
    requires n > 0
    ensures 1 <= ChunkSize(n) <= n
  {
  }

  lemma MoveKeeps(y: System, d: seq<Byte>, b: seq<Byte>)
    requires Fits(y) && y.h.left > 0 && DataMoved(y, y.n - y.h.left, d, b)
    ensures DataMoved(Move(y), y.n - y.h.left + ChunkSize(y.h.left), d, b)
    ensures Move(y).h == y.h && Move(y).n == y.n && Move(y).lba == y.lba && Move(y).at == y.at
  {
    hide ReadSoFar, WriteSoFar, Placed, WriteSectors, ReadSectors, ChunkSize;
    ChunkFits(y.h.left);
    var k := ChunkSize(y.h.left);
    if y.h.op == ReadSector {
      ReadSoFarStep(d, b, y.buf, Move(y).buf, y.at, y.lba, First(y), k);
    } else {
      WriteSoFarStep(d, b, y.disk, Move(y).disk, y.at, y.lba, First(y), k);
    }
  }

  lemma {:induction false} GoesKeeps(y: System, es: seq<Event>, z: System, d: seq<Byte>, b: seq<Byte>)
    requires Moved(y, d, b) && Goes(y, es, z)
    ensures Moved(z, d, b) && z.lba == y.lba && z.n == y.n && z.at == y.at && z.h.op == y.h.op
    decreases |es|
  {
    hide Moved, Inv;
    if es != [] {
      AdvanceKeeps(y, es[0], d, b);
      GoesKeeps(Advance(y, es[0]), es[1..], z, d, b);
    }
  }

  /** From every reachable state of the channel, with interrupts at any time, spurious and repeated ones included: when
      the transfer is over, a read has put exactly the sectors into the buffer, and a write has put exactly the buffer
      onto the disk. */
  lemma TransferDelivers(hs: seq<Event>, h: State, op: Op, y: System, es: seq<Event>, z: System)
    requires Run(Boot(), hs, h) && h.pc == Idle && y.n > 0 && OnDisk(y.disk, y.lba, y.n) && y.at + 512 * y.n <= |y.buf|
    requires y.h == Step(h, Begin(op, y.n)).state && Goes(y, es, z) && z.h.pc == Idle
    ensures op == ReadSector ==> z.disk == y.disk && z.buf == Placed(y.buf, y.at, ReadSectors(y.disk, y.lba, y.n))
    ensures op == WriteSector ==>
              z.buf == y.buf && z.disk == WriteSectors(y.disk, y.lba, y.buf[y.at..y.at + 512 * y.n])
  {
    hide Goes, Run, NumChunks;
    Reached(hs, h);
    StepKeeps(h, Begin(op, y.n));
    assert Moved(y, y.disk, y.buf);
    GoesKeeps(y, es, z, y.disk, y.buf);
    assert z.h.left == 0 && SectorsMoved(z.h, z.n) == z.n;
  }
}
