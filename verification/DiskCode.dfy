/** ide_read and ide_write with their chunk loops, against a device that takes commands through its registers. */
module DiskCode {
  import opened Words
  import opened Disk

  /** Drive, command byte, and what the device made of its registers. */
  datatype Issued = Issued(drive: int, op: Op, c: Command)

  function Issue(drive: int, op: Op, cs: seq<Command>): (s: seq<Issued>)
    ensures |s| == |cs|
  {
    seq(|cs|, i requires 0 <= i < |cs| => Issued(drive, op, cs[i]))
  }

  /** The transfer comes to its end: the asserts of the driver hold, and the device has all the sectors. */
  predicate Completes(size: int, lba: int, n: int) {
    n > 0 && LastChunk(lba, n) <= MAX_LBA && 512 * (lba + n) <= size
  }

  function Placed(b: seq<Byte>, at: nat, x: seq<Byte>): (b': seq<Byte>)
    requires at + |x| <= |b|
    ensures |b'| == |b|
  {
    b[..at] + x + b[at + |x|..]
  }

  /** Nothing but the sectors of the interval has changed. */
  predicate Outside(d: seq<Byte>, now: seq<Byte>, lba: int, n: int) {
    |now| == |d| && forall k :: 0 <= k < |d| && !(512 * lba <= k < 512 * (lba + n)) ==> now[k] == d[k]
  }

  /** A channel with two drives. */
  class Channel {
    var regs: Registers
    const master: array<Byte>
    const slave: array<Byte>

    // The command being carried out: its drive, its next byte on the disk, and how many bytes are left.
    var drive: int
    var pos: nat
    var left: nat
    ghost var issued: seq<Issued>

    ghost predicate Valid()
      reads this
    {
      master != slave && pos + left <= Disk(drive).Length && left % 2 == 0
    }

    constructor (master: array<Byte>, slave: array<Byte>)
      requires master != slave
      ensures Valid() && this.master == master && this.slave == slave && issued == [] && left == 0
    {
      this.master, this.slave := master, slave;
      regs := Registers(0, 0, 0, 0, 0);
      drive, pos, left := 0, 0, 0;
      issued := [];
    }

    function Disk(k: int): array<Byte> {
      if k == 1 then slave else master
    }

    /** select_disk */
    method SelectDisk(devNo: int)
      requires Valid() && 0 <= devNo <= 1
      modifies this`regs
      ensures regs == old(regs).(dev := DevRegister(devNo, 0))
      ensures DriveOf(regs) == devNo && LbaMode(regs) && FixedBits(regs)
    {
      regs := regs.(dev := DevRegister(devNo, 0));
    }

    /** select_sector; a failed assertion gives false. */
    method SelectSector(devNo: int, lba: Word, secCnt: Byte) returns (ok: bool)
      requires Valid()
      modifies this`regs
      ensures ok == (lba <= MAX_LBA)
      ensures ok ==> regs == Encode(devNo, lba, secCnt)
      ensures !ok ==> regs == old(regs)
    {
      if lba > MAX_LBA {
        return false;
      }
      regs := regs.(cnt := secCnt);
      regs := regs.(low := lba % 256);
      regs := regs.(mid := lba / 0x100 % 256);
      regs := regs.(high := lba / 0x1_0000 % 256);
      regs := regs.(dev := DevRegister(devNo, lba / 0x100_0000));
      return true;
    }

    /** cmd_out, and the device up to the moment when busy_wait has its answer: false if a sector does not exist, or if
        the address is no lba. */
    method CmdOut(op: Op) returns (ready: bool)
      requires Valid()
      modifies this`drive, this`pos, this`left, this`issued
      ensures Valid()
      ensures var c, k := Decode(regs), DriveOf(regs);
              && ready == (LbaMode(regs) && 512 * (c.lba + c.count) <= Disk(k).Length)
              && (ready ==> drive == k && pos == 512 * c.lba && left == 512 * c.count)
              && issued == old(issued) + [Issued(k, op, c)]
    {
      var c := Decode(regs);
      issued := issued + [Issued(DriveOf(regs), op, c)];
      drive := DriveOf(regs);
      ready := LbaMode(regs) && 512 * (c.lba + c.count) <= Disk(drive).Length;
      pos := if ready then 512 * c.lba else 0;
      left := if ready then 512 * c.count else 0;
    }

    /** One word from or to the data port; the device has it only while a command is being carried out. */
    method Inw() returns (w: int)
      requires Valid() && left > 0
      modifies this`pos, this`left
      ensures Valid() && pos == old(pos) + 2 && left == old(left) - 2
      ensures w == WordOf(Disk(drive)[old(pos)], Disk(drive)[old(pos) + 1])
    {
      w := WordOf(Disk(drive)[pos], Disk(drive)[pos + 1]);
      pos, left := pos + 2, left - 2;
    }

    method Outw(w: int)
      requires Valid() && left > 0 && 0 <= w < 0x1_0000
      modifies this`pos, this`left, Disk(drive)
      ensures Valid() && pos == old(pos) + 2 && left == old(left) - 2
      ensures Disk(drive)[old(pos)] == w % 0x100 && Disk(drive)[old(pos) + 1] == w / 0x100
      ensures forall k :: 0 <= k < Disk(drive).Length && k != old(pos) && k != old(pos) + 1 ==>
                Disk(drive)[k] == old(Disk(drive)[k])
    {
      var d := Disk(drive);
      d[pos] := w % 0x100;
      d[pos + 1] := w / 0x100;
      pos, left := pos + 2, left - 2;
    }

    /** read_from_sector: it takes exactly what the device has to give. */
    method ReadFromSector(buf: array<Byte>, at: nat, secCnt: Byte)
      requires Valid() && left == TransferSize(secCnt) && at + left <= buf.Length && buf != master && buf != slave
      modifies this`pos, this`left, buf
      ensures Valid() && left == 0
      ensures buf[..] == Placed(old(buf[..]), at, old(Disk(drive)[pos..pos + left]))
    {
      var size := TransferSize(secCnt);
      ghost var from := pos;
      ghost var d := Disk(drive);
      var i := 0;
      while i < size / 2
        invariant 0 <= i <= size / 2 && Valid() && pos == from + 2 * i && left == size - 2 * i
        invariant forall k :: at <= k < at + 2 * i ==> buf[k] == d[from + (k - at)]
        invariant forall k :: 0 <= k < buf.Length && !(at <= k < at + 2 * i) ==> buf[k] == old(buf[k])
      {
        var w := Inw();
        WordSplits(d[from + 2 * i], d[from + 2 * i + 1]);
        buf[at + 2 * i] := w % 0x100;
        buf[at + 2 * i + 1] := w / 0x100;
        i := i + 1;
      }
    }

    /** write_to_sector */
    method WriteToSector(buf: array<Byte>, at: nat, secCnt: Byte)
      requires Valid() && left == TransferSize(secCnt) && at + left <= buf.Length && buf != master && buf != slave
      modifies this`pos, this`left, Disk(drive)
      ensures Valid() && left == 0
      ensures Disk(drive)[..] == old(Disk(drive)[..pos] + buf[at..at + left] + Disk(drive)[pos + left..])
    {
      var size := TransferSize(secCnt);
      ghost var to := pos;
      ghost var d := Disk(drive);
      var i := 0;
      while i < size / 2
        invariant 0 <= i <= size / 2 && Valid() && pos == to + 2 * i && left == size - 2 * i
        invariant forall k :: to <= k < to + 2 * i ==> d[k] == buf[at + (k - to)]
        invariant forall k :: 0 <= k < d.Length && !(to <= k < to + 2 * i) ==> d[k] == old(d[k])
      {
        WordSplits(buf[at + 2 * i], buf[at + 2 * i + 1]);
        Outw(WordOf(buf[at + 2 * i], buf[at + 2 * i + 1]));
        i := i + 1;
      }
    }

    /** The body of the loop in ide_read. */
    method ReadChunk(devNo: int, lba: Word, buf: array<Byte>, at: nat, secsOp: int) returns (ok: bool)
      requires Valid() && 0 <= devNo <= 1 && 1 <= secsOp <= 256
      requires buf != master && buf != slave && at + 512 * secsOp <= buf.Length
      modifies this`regs, this`drive, this`pos, this`left, this`issued, buf
      ensures Valid() && (ok <==> lba <= MAX_LBA && 512 * (lba + secsOp) <= Disk(devNo).Length)
      ensures ok ==> buf[..] == Placed(old(buf[..]), at, ReadSectors(Disk(devNo)[..], lba, secsOp))
      ensures ok ==> left == 0 && issued == old(issued) + [Issued(devNo, ReadSector, Command(lba, secsOp))]
      ensures Disk(devNo)[..] == old(Disk(devNo)[..])
    {
      ok := SelectSector(devNo, lba, secsOp % 256);
      if !ok {
        return;
      }
      DecodeEncode(devNo, lba, secsOp);
      TransferMatches(regs);
      hide Decode, Encode, DriveOf, LbaMode, FixedBits;
      ok := CmdOut(ReadSector);
      if ok {
        ReadFromSector(buf, at, secsOp % 256);
      }
    }

    /** One round of the loop in ide_read. */
    method ReadNext(devNo: int, lba: Word, buf: array<Byte>, at: nat, secCnt: Word, secsDone: Word,
                    ghost before: seq<Byte>, ghost log: seq<Issued>) returns (ok: bool, secsDone': Word)
      requires Valid() && 0 <= devNo <= 1 && buf != master && buf != slave && at + 512 * secCnt <= buf.Length
      requires lba <= MAX_LBA && secsDone < secCnt && |before| == buf.Length
      requires Reading(Disk(devNo)[..], before, buf[..], at, lba, secsDone, secCnt, log, issued, devNo)
      modifies this`regs, this`drive, this`pos, this`left, this`issued, buf
      ensures Valid() && Disk(devNo)[..] == old(Disk(devNo)[..])
      ensures ok ==> secsDone < secsDone' <= secCnt && left == 0
      ensures ok ==> Reading(Disk(devNo)[..], before, buf[..], at, lba, secsDone', secCnt, log, issued, devNo)
      ensures !ok ==> !Completes(Disk(devNo).Length, lba, secCnt)
    {
      hide Progress, Completes, Chunks, Issue, Placed, ReadSectors, ReadSoFar, LogSoFar, LastChunk;
      ghost var d := Disk(devNo)[..];
      ProgressStep(|d|, lba, secsDone, secCnt);
      var secsOp: Word := if secsDone + 256 <= secCnt then 256 else secCnt - secsDone;
      ghost var mid, midLog := buf[..], issued;
      ok := ReadChunk(devNo, lba + secsDone, buf, at + 512 * secsDone, secsOp);
      secsDone' := secsDone;
      if ok {
        ReadSoFarStep(d, before, mid, buf[..], at, lba, secsDone, secsOp);
        LogStep(log, midLog, issued, devNo, ReadSector, lba, secsDone, secCnt);
        secsDone' := secsDone + secsOp;
      }
    }

    /** ide_read: false if it panics, because of an assertion or because the device reports an error. */
    method IdeRead(devNo: int, lba: Word, buf: array<Byte>, at: nat, secCnt: Word) returns (ok: bool)
      requires Valid() && 0 <= devNo <= 1 && buf != master && buf != slave && at + 512 * secCnt <= buf.Length
      modifies this`regs, this`drive, this`pos, this`left, this`issued, buf
      ensures Valid() && (ok <==> Completes(Disk(devNo).Length, lba, secCnt))
      ensures ok ==> buf[..] == Placed(old(buf[..]), at, ReadSectors(Disk(devNo)[..], lba, secCnt))
      ensures ok ==> left == 0 && issued == old(issued) + Issue(devNo, ReadSector, Chunks(lba, secCnt))
    {
      if lba > MAX_LBA || secCnt == 0 {
        return false;
      }
      hide Completes, Chunks, Issue, Placed, ReadSectors, WriteSectors, Reading, Writing, LastChunk, Outside;
      SelectDisk(devNo);
      var secsDone: Word := 0;
      ghost var d, before, log := Disk(devNo)[..], buf[..], issued;
      Start(d, before, at, lba, secCnt, log, devNo);
      while secsDone < secCnt
        invariant Valid() && Disk(devNo)[..] == d && (secsDone > 0 ==> left == 0) && 0 <= secsDone <= secCnt
        invariant Reading(d, before, buf[..], at, lba, secsDone, secCnt, log, issued, devNo)
      {
        ok, secsDone := ReadNext(devNo, lba, buf, at, secCnt, secsDone, before, log);
        if !ok {
          return;
        }
      }
      ReadFinish(d, before, buf[..], at, lba, secCnt, log, issued, devNo);
      ok := true;
    }

    /** The body of the loop in ide_write. */
    method WriteChunk(devNo: int, lba: Word, buf: array<Byte>, at: nat, secsOp: int) returns (ok: bool)
      requires Valid() && 0 <= devNo <= 1 && 1 <= secsOp <= 256
      requires buf != master && buf != slave && at + 512 * secsOp <= buf.Length
      modifies this`regs, this`drive, this`pos, this`left, this`issued, Disk(devNo)
      ensures Valid() && (ok <==> lba <= MAX_LBA && 512 * (lba + secsOp) <= Disk(devNo).Length)
      ensures Disk(devNo)[..] == if ok then WriteSectors(old(Disk(devNo)[..]), lba, buf[at..at + 512 * secsOp])
                                 else old(Disk(devNo)[..])
      ensures ok ==> left == 0 && issued == old(issued) + [Issued(devNo, WriteSector, Command(lba, secsOp))]
    {
      ok := SelectSector(devNo, lba, secsOp % 256);
      if !ok {
        return;
      }
      DecodeEncode(devNo, lba, secsOp);
      TransferMatches(regs);
      hide Decode, Encode, DriveOf, LbaMode, FixedBits;
      ok := CmdOut(WriteSector);
      if ok {
        assert Disk(drive) == Disk(devNo);
        WriteToSector(buf, at, secsOp % 256);
      }
    }

    /** One round of the loop in ide_write. */
    method WriteNext(devNo: int, lba: Word, buf: array<Byte>, at: nat, secCnt: Word, secsDone: Word,
                     ghost d: seq<Byte>, ghost log: seq<Issued>) returns (ok: bool, secsDone': Word)
      requires Valid() && 0 <= devNo <= 1 && buf != master && buf != slave && at + 512 * secCnt <= buf.Length
      requires lba <= MAX_LBA && secsDone < secCnt && |d| == Disk(devNo).Length
      requires Writing(d, buf[..], Disk(devNo)[..], at, lba, secsDone, secCnt, log, issued, devNo)
      modifies this`regs, this`drive, this`pos, this`left, this`issued, Disk(devNo)
      ensures Valid()
      ensures ok ==> secsDone < secsDone' <= secCnt && left == 0
      ensures ok ==> Writing(d, buf[..], Disk(devNo)[..], at, lba, secsDone', secCnt, log, issued, devNo)
      ensures !ok ==> !Completes(|d|, lba, secCnt) && Outside(d, Disk(devNo)[..], lba, secCnt)
    {
      hide Progress, Completes, Chunks, Issue, WriteSectors, WriteSoFar, LogSoFar, LastChunk, Outside;
      ProgressStep(|d|, lba, secsDone, secCnt);
      var secsOp: Word := if secsDone + 256 <= secCnt then 256 else secCnt - secsDone;
      ghost var mid, midLog := Disk(devNo)[..], issued;
      WriteOutside(d, buf[..], mid, at, lba, secsDone, secCnt);
      ok := WriteChunk(devNo, lba + secsDone, buf, at + 512 * secsDone, secsOp);
      secsDone' := secsDone;
      if ok {
        WriteSoFarStep(d, buf[..], mid, Disk(devNo)[..], at, lba, secsDone, secsOp);
        LogStep(log, midLog, issued, devNo, WriteSector, lba, secsDone, secCnt);
        secsDone' := secsDone + secsOp;
      }
    }

    /** ide_write: false if it panics. Even then it has changed only sectors of the interval, and in both cases the
        other drive is left alone. */
    method IdeWrite(devNo: int, lba: Word, buf: array<Byte>, at: nat, secCnt: Word) returns (ok: bool)
      requires Valid() && 0 <= devNo <= 1 && buf != master && buf != slave && at + 512 * secCnt <= buf.Length
      modifies this`regs, this`drive, this`pos, this`left, this`issued, Disk(devNo)
      ensures Valid() && (ok <==> Completes(Disk(devNo).Length, lba, secCnt))
      ensures ok ==> Disk(devNo)[..] == WriteSectors(old(Disk(devNo)[..]), lba, buf[at..at + 512 * secCnt])
      ensures ok ==> left == 0 && issued == old(issued) + Issue(devNo, WriteSector, Chunks(lba, secCnt))
      ensures Outside(old(Disk(devNo)[..]), Disk(devNo)[..], lba, secCnt)
    {
      if lba > MAX_LBA || secCnt == 0 {
        return false;
      }
      hide Completes, Chunks, Issue, Placed, ReadSectors, WriteSectors, Reading, Writing, LastChunk, Outside;
      SelectDisk(devNo);
      var secsDone: Word := 0;
      ghost var d, log := Disk(devNo)[..], issued;
      Start(d, buf[..], at, lba, secCnt, log, devNo);
      while secsDone < secCnt
        invariant Valid() && (secsDone > 0 ==> left == 0) && 0 <= secsDone <= secCnt
        invariant Writing(d, buf[..], Disk(devNo)[..], at, lba, secsDone, secCnt, log, issued, devNo)
      {
        ok, secsDone := WriteNext(devNo, lba, buf, at, secCnt, secsDone, d, log);
        if !ok {
          return;
        }
      }
      WriteFinish(d, buf[..], Disk(devNo)[..], at, lba, secCnt, log, issued, devNo);
      WriteOutside(d, buf[..], Disk(devNo)[..], at, lba, secCnt, secCnt);
      ok := true;
    }
  }

  // ---------------------------------------------------------------- the chunk loops

  /** What a reading loop has done to the buffer after `done` sectors. */
  predicate ReadSoFar(d: seq<Byte>, before: seq<Byte>, now: seq<Byte>, at: nat, lba: int, done: nat) {
    if done == 0 then now == before
    else OnDisk(d, lba, done) && at + 512 * done <= |before|
         && now == Placed(before, at, ReadSectors(d, lba, done))
  }

  /** What a writing loop has done to the disk. */
  predicate WriteSoFar(d: seq<Byte>, b: seq<Byte>, now: seq<Byte>, at: nat, lba: int, done: nat) {
    if done == 0 then now == d
    else OnDisk(d, lba, done) && at + 512 * done <= |b|
         && now == WriteSectors(d, lba, b[at..at + 512 * done])
  }

  /** The commands so far, followed by those for the rest. */
  predicate LogSoFar(was: seq<Issued>, now: seq<Issued>, drive: int, op: Op, lba: int, done: nat, n: nat) {
    done <= n && now + Issue(drive, op, Chunks(lba + done, n - done)) == was + Issue(drive, op, Chunks(lba, n))
  }

  predicate Reading(d: seq<Byte>, before: seq<Byte>, now: seq<Byte>, at: nat, lba: int, done: nat, n: nat,
                    log: seq<Issued>, issued: seq<Issued>, drive: int) {
    && Progress(|d|, lba, done, n) && ReadSoFar(d, before, now, at, lba, done)
    && LogSoFar(log, issued, drive, ReadSector, lba, done, n)
  }

  predicate Writing(d: seq<Byte>, b: seq<Byte>, now: seq<Byte>, at: nat, lba: int, done: nat, n: nat,
                    log: seq<Issued>, issued: seq<Issued>, drive: int) {
    && Progress(|d|, lba, done, n) && WriteSoFar(d, b, now, at, lba, done)
    && LogSoFar(log, issued, drive, WriteSector, lba, done, n)
  }

  lemma Start(d: seq<Byte>, b: seq<Byte>, at: nat, lba: int, n: nat, log: seq<Issued>, drive: int)
    ensures Reading(d, b, b, at, lba, 0, n, log, log, drive) && Writing(d, b, d, at, lba, 0, n, log, log, drive)
  {
  }

  lemma ReadSoFarStep(d: seq<Byte>, before: seq<Byte>, mid: seq<Byte>, now: seq<Byte>, at: nat, lba: int, done: nat,
                      k: nat)
    requires ReadSoFar(d, before, mid, at, lba, done) && k > 0 && lba >= 0
    requires OnDisk(d, lba + done, k) && at + 512 * (done + k) <= |before| == |mid|
    requires now == Placed(mid, at + 512 * done, ReadSectors(d, lba + done, k))
    ensures ReadSoFar(d, before, now, at, lba, done + k)
  {
    if done > 0 {
      ReadInParts(d, lba, done, done + k);
    }
  }

  lemma WriteSoFarStep(d: seq<Byte>, b: seq<Byte>, mid: seq<Byte>, now: seq<Byte>, at: nat, lba: int, done: nat,
                       k: nat)
    requires WriteSoFar(d, b, mid, at, lba, done) && k > 0 && lba >= 0
    requires OnDisk(d, lba + done, k) && at + 512 * (done + k) <= |b| && |mid| == |d|
    requires now == WriteSectors(mid, lba + done, b[at + 512 * done..at + 512 * done + 512 * k])
    ensures WriteSoFar(d, b, now, at, lba, done + k)
  {
    if done > 0 {
      var x, y := b[at..at + 512 * done], b[at + 512 * done..at + 512 * done + 512 * k];
      assert x + y == b[at..at + 512 * (done + k)];
      WriteInParts(d, lba, done, x, y);
    }
  }

  lemma LogStep(was: seq<Issued>, mid: seq<Issued>, now: seq<Issued>, drive: int, op: Op, lba: int, done: nat, n: nat)
    requires LogSoFar(was, mid, drive, op, lba, done, n) && done < n
    requires now == mid + [Issued(drive, op, Command(lba + done, ChunkSize(n - done)))]
    ensures LogSoFar(was, now, drive, op, lba, done + ChunkSize(n - done), n)
  {
    var k := ChunkSize(n - done);
    var rest := Issue(drive, op, Chunks(lba + done + k, n - done - k));
    assert Issue(drive, op, Chunks(lba + done, n - done)) == [Issued(drive, op, Command(lba + done, k))] + rest;
    assert now + rest == mid + ([Issued(drive, op, Command(lba + done, k))] + rest);
  }

  lemma LogFinish(log: seq<Issued>, now: seq<Issued>, drive: int, op: Op, lba: int, n: nat)
    requires LogSoFar(log, now, drive, op, lba, n, n)
    ensures now == log + Issue(drive, op, Chunks(lba, n))
  {
    assert Issue(drive, op, Chunks(lba + n, 0)) == [];
  }

  lemma ReadFinish(d: seq<Byte>, before: seq<Byte>, now: seq<Byte>, at: nat, lba: int, n: nat, log: seq<Issued>,
                   issued: seq<Issued>, drive: int)
    requires Reading(d, before, now, at, lba, n, n, log, issued, drive) && n > 0
    ensures OnDisk(d, lba, n) && at + 512 * n <= |before| && now == Placed(before, at, ReadSectors(d, lba, n))
    ensures issued == log + Issue(drive, ReadSector, Chunks(lba, n)) && Completes(|d|, lba, n)
  {
    LogFinish(log, issued, drive, ReadSector, lba, n);
  }

  lemma WriteFinish(d: seq<Byte>, b: seq<Byte>, now: seq<Byte>, at: nat, lba: int, n: nat, log: seq<Issued>,
                    issued: seq<Issued>, drive: int)
    requires Writing(d, b, now, at, lba, n, n, log, issued, drive) && n > 0
    ensures OnDisk(d, lba, n) && at + 512 * n <= |b|
    ensures now == WriteSectors(d, lba, b[at..at + 512 * n])
    ensures issued == log + Issue(drive, WriteSector, Chunks(lba, n)) && Completes(|d|, lba, n)
  {
    LogFinish(log, issued, drive, WriteSector, lba, n);
  }

  lemma WriteOutside(d: seq<Byte>, b: seq<Byte>, now: seq<Byte>, at: nat, lba: int, done: nat, n: nat)
    requires WriteSoFar(d, b, now, at, lba, done) && done <= n
    ensures Outside(d, now, lba, n)
  {
  }

  /** What holds in the chunk loops after `done` sectors. */
  predicate Progress(size: int, lba: int, done: int, n: int) {
    && (done % 256 == 0 || done == n)
    && (done > 0 ==> LastChunk(lba, done) <= MAX_LBA && 512 * (lba + done) <= size)
  }

  /** The next chunk goes through, or the transfer is one that cannot be completed. */
  lemma ProgressStep(size: int, lba: Word, done: Word, n: Word)
    requires Progress(size, lba, done, n) && done < n && lba <= MAX_LBA
    ensures lba + done + 256 < 0x1_0000_0000 && (done > 0 ==> 512 * (lba + done) <= size)
    ensures var k := ChunkSize(n - done);
            if lba + done <= MAX_LBA && 512 * (lba + done + k) <= size then Progress(size, lba, done + k, n)
            else !Completes(size, lba, n)
  {
  }

  function WordOf(low: int, high: int): int {
    low + 0x100 * high
  }

  lemma WordSplits(low: Byte, high: Byte)
    ensures var w := WordOf(low, high); 0 <= w < 0x1_0000 && w % 0x100 == low && w / 0x100 == high
  {
  }
}
