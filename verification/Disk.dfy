/** The disk driver of os/kernel/ide.c: how a transfer is split into commands, what the registers mean, and the flat
    disk that the driver implements. Waiting for the device is in DiskHandshake. */
module Disk {
  type Byte = x: int | 0 <= x < 256

  const MAX_LBA := 80 * 1024 * 1024 / 512 - 1

  // ---------------------------------------------------------------- commands

  /** CMD_READ_SECTOR and CMD_WRITE_SECTOR */
  datatype Op = ReadSector | WriteSector

  /** A transfer of `count` sectors from `lba` on. */
  datatype Command = Command(lba: int, count: int)

  function ChunkSize(n: nat): nat {
    if n >= 256 then 256 else n
  }

  /** The commands for `n` sectors from `lba` on. */
  function Chunks(lba: int, n: nat): (cs: seq<Command>)
    decreases n
  {
    if n == 0 then []
    else [Command(lba, ChunkSize(n))] + Chunks(lba + ChunkSize(n), n - ChunkSize(n))
  }

  predicate Covers(c: Command, s: int) {
    c.lba <= s < c.lba + c.count
  }

  lemma {:induction false} ChunkAt(lba: int, n: nat, i: nat)
    ensures |Chunks(lba, n)| == (n + 255) / 256
    ensures i < |Chunks(lba, n)| ==> 256 * i < n && Chunks(lba, n)[i] == Command(lba + 256 * i, ChunkSize(n - 256 * i))
    decreases n
  {
    if n > 0 {
      ChunkAt(lba + ChunkSize(n), n - ChunkSize(n), if i > 0 then i - 1 else 0);
    }
  }

  /** The commands partition the interval: each has 1 to 256 sectors, only the last has less than 256, and every
      sector is in exactly one command if it is in the interval and in none if it is not. */
  lemma ChunksPartition(lba: int, n: nat, s: int)
    ensures var cs := Chunks(lba, n);
            && (forall i :: 0 <= i < |cs| ==> 1 <= cs[i].count <= 256 && (i < |cs| - 1 ==> cs[i].count == 256))
            && (forall i :: 0 <= i < |cs| ==> cs[i].lba == lba + 256 * i)
            && |cs| == (n + 255) / 256
            && (lba <= s < lba + n <==> exists i :: 0 <= i < |cs| && Covers(cs[i], s))
            && (forall i, j :: 0 <= i < j < |cs| ==> !(Covers(cs[i], s) && Covers(cs[j], s)))
  {
    var cs := Chunks(lba, n);
    ChunkAt(lba, n, 0);
    forall i: nat | i < |cs| ensures 256 * i < n && cs[i] == Command(lba + 256 * i, ChunkSize(n - 256 * i)) {
      ChunkAt(lba, n, i);
    }
    hide Chunks;
    if lba <= s < lba + n {
      var k := (s - lba) / 256;
      assert k < |cs| && Covers(cs[k], s);
    }
  }

  /** The lba of the last command. */
  function LastChunk(lba: int, n: int): int
    requires n > 0
  {
    lba + (n - 1) / 256 * 256
  }

  /** The asserts of ide_read and ide_write look at the first sector of every command. They hold exactly if the last
      command starts on the disk. */
  lemma AssertsExact(lba: int, n: nat)
    requires n > 0
    ensures var cs := Chunks(lba, n);
            (forall i :: 0 <= i < |cs| ==> cs[i].lba <= MAX_LBA) <==> LastChunk(lba, n) <= MAX_LBA
  {
    ChunksPartition(lba, n, 0);
    var cs := Chunks(lba, n);
    assert (n - 1) / 256 == |cs| - 1;
    assert cs[|cs| - 1].lba == LastChunk(lba, n);
  }

  /** Some command has a sector behind the end of the disk. */
  ghost predicate RunsOver(cs: seq<Command>) {
    exists i, s :: 0 <= i < |cs| && Covers(cs[i], s) && s > MAX_LBA
  }

  /** The asserts do not see every transfer that runs over the end: they hold, and some command has a sector behind
      the end, exactly if the last command starts on the disk and the last sector does not lie on it. */
  lemma AssertsMissTheEnd(lba: int, n: nat)
    requires n > 0
    ensures var cs := Chunks(lba, n);
            (forall i :: 0 <= i < |cs| ==> cs[i].lba <= MAX_LBA) && RunsOver(cs) <==>
            LastChunk(lba, n) <= MAX_LBA < lba + n - 1
  {
    var cs := Chunks(lba, n);
    AssertsExact(lba, n);
    hide Chunks, LastChunk;
    if RunsOver(cs) {
      var i, s :| 0 <= i < |cs| && Covers(cs[i], s) && s > MAX_LBA;
      ChunksPartition(lba, n, s);
      assert lba <= s < lba + n;
    }
    if MAX_LBA < lba + n - 1 {
      var s := lba + n - 1;
      ChunksPartition(lba, n, s);
      var i :| 0 <= i < |cs| && Covers(cs[i], s);
      assert RunsOver(cs);
    }
  }

  /** Two sectors from the last one on: one command, which passes, and covers a sector that is not there. */
  lemma LastSectorAndNext()
    ensures Chunks(MAX_LBA, 2) == [Command(MAX_LBA, 2)]
    ensures 512 * (MAX_LBA + 1) == 80 * 0x10_0000
    ensures Chunks(MAX_LBA, 2)[0].lba <= MAX_LBA && Covers(Chunks(MAX_LBA, 2)[0], MAX_LBA + 1)
  {
  }

  // ---------------------------------------------------------------- registers

  /** The registers that a command reads. */
  datatype Registers = Registers(cnt: Byte, low: Byte, mid: Byte, high: Byte, dev: Byte)

  /** BIT_DEV_MBS | BIT_DEV_LBA, with BIT_DEV_DEV for the second drive, and the upper bits of the lba. */
  function DevRegister(drive: int, top: int): Byte
    requires 0 <= top < 16
  {
    0xa0 + 0x40 + (if drive == 1 then 0x10 else 0) + top
  }

  /** What select_sector writes; the count has been cut to a byte. */
  function Encode(drive: int, lba: int, cnt: Byte): Registers
    requires 0 <= lba < 0x1000_0000
  {
    Registers(cnt, lba % 256, lba / 0x100 % 256, lba / 0x1_0000 % 256, DevRegister(drive, lba / 0x100_0000))
  }

  /** How the device takes them (section 8 of ATA/ATAPI-6, READ SECTOR(S)): a count of 0 stands for 256. */
  function Decode(r: Registers): Command {
    Command(r.low + 0x100 * r.mid + 0x1_0000 * r.high + 0x100_0000 * (r.dev % 16), if r.cnt == 0 then 256 else r.cnt)
  }

  function DriveOf(r: Registers): int {
    r.dev / 16 % 2
  }

  /** Bit 6 of the device register: the address is an lba and not a cylinder, head and sector. */
  predicate LbaMode(r: Registers) {
    r.dev / 64 % 2 == 1
  }

  /** Bits 7 and 5, which are set in every command. */
  predicate FixedBits(r: Registers) {
    r.dev / 128 == 1 && r.dev / 32 % 2 == 1
  }

  lemma SplitBytes(lba: int)
    requires 0 <= lba < 0x1000_0000
    ensures lba == lba % 256 + 0x100 * (lba / 0x100 % 256) + 0x1_0000 * (lba / 0x1_0000 % 256)
                   + 0x100_0000 * (lba / 0x100_0000)
  {
    var q := lba / 0x100;
    assert q / 0x100 == lba / 0x1_0000;
    assert lba / 0x1_0000 / 0x100 == lba / 0x100_0000;
  }

  lemma DeviceBits(drive: int, top: int)
    requires 0 <= drive <= 1 && 0 <= top < 16
    ensures var d := DevRegister(drive, top);
            d % 16 == top && d / 16 % 2 == drive && d / 32 % 2 == 1 && d / 64 % 2 == 1 && d / 128 == 1
  {
    assert DevRegister(drive, top) / 16 == 14 + drive;
  }

  lemma ByteCount(n: int)
    requires 1 <= n <= 256
    ensures n % 256 == if n == 256 then 0 else n
  {
  }

  /** What the device makes of registers, from the bits of the last one. */
  lemma Assembled(cnt: Byte, low: Byte, mid: Byte, high: Byte, dev: Byte, top: int, drive: int)
    requires dev % 16 == top && dev / 16 % 2 == drive && dev / 32 % 2 == 1 && dev / 64 % 2 == 1 && dev / 128 == 1
    ensures var r := Registers(cnt, low, mid, high, dev);
            && Decode(r).lba == low + 0x100 * mid + 0x1_0000 * high + 0x100_0000 * top
            && Decode(r).count == (if cnt == 0 then 256 else cnt)
            && DriveOf(r) == drive && LbaMode(r) && FixedBits(r)
  {
  }

  /** The device understands what the driver wrote, for all 28-bit addresses and 1 to 256 sectors. */
  lemma DecodeEncode(drive: int, lba: int, n: int)
    requires 0 <= drive <= 1 && 0 <= lba < 0x1000_0000 && 1 <= n <= 256
    ensures var r := Encode(drive, lba, n % 256);
            Decode(r) == Command(lba, n) && DriveOf(r) == drive && LbaMode(r) && FixedBits(r)
  {
    hide DevRegister, Decode, DriveOf, LbaMode, FixedBits;
    SplitBytes(lba);
    var top := lba / 0x100_0000;
    DeviceBits(drive, top);
    ByteCount(n);
    Assembled(n % 256, lba % 256, lba / 0x100 % 256, lba / 0x1_0000 % 256, DevRegister(drive, top), top, drive);
  }

  /** size_in_byte of the two transfer routines. */
  function TransferSize(cnt: Byte): int {
    if cnt == 0 then 256 * 512 else cnt * 512
  }

  /** They move as many bytes as the command has. */
  lemma TransferMatches(r: Registers)
    ensures TransferSize(r.cnt) == 512 * Decode(r).count
  {
  }

  // ---------------------------------------------------------------- the flat disk

  predicate OnDisk(d: seq<Byte>, lba: int, n: int) {
    0 <= lba && 0 <= n && 512 * (lba + n) <= |d|
  }

  function ReadSectors(d: seq<Byte>, lba: int, n: int): seq<Byte>
    requires OnDisk(d, lba, n)
  {
    d[512 * lba..512 * (lba + n)]
  }

  function WriteSectors(d: seq<Byte>, lba: int, data: seq<Byte>): (d': seq<Byte>)
    requires 0 <= lba && 512 * lba + |data| <= |d|
    ensures |d'| == |d|
  {
    d[..512 * lba] + data + d[512 * lba + |data|..]
  }

  /** A read returns what the last write put there, for the sectors they share, and what was there before for the
      others. */
  lemma ReadAfterWrite(d: seq<Byte>, lba: int, n: int, data: seq<Byte>, s: int)
    requires OnDisk(d, lba, n) && |data| == 512 * n && OnDisk(d, s, 1)
    ensures OnDisk(WriteSectors(d, lba, data), lba, n) && ReadSectors(WriteSectors(d, lba, data), lba, n) == data
    ensures ReadSectors(WriteSectors(d, lba, data), s, 1) ==
            if lba <= s < lba + n then data[512 * (s - lba)..512 * (s - lba + 1)] else ReadSectors(d, s, 1)
  {
    var d' := WriteSectors(d, lba, data);
    var at, end := 512 * lba, 512 * lba + |data|;
    WrittenBytes(d, at, data);
    assert d'[512 * lba..512 * (lba + n)] == data;
    hide WriteSectors;
    var i := 512 * s;
    if lba <= s < lba + n {
      assert d'[i..i + 512] == d'[at..end][i - at..i - at + 512];
    } else {
      assert d'[i..i + 512] == d[i..i + 512];
    }
  }

  lemma WrittenBytes(d: seq<Byte>, at: int, data: seq<Byte>)
    requires 0 <= at && at % 512 == 0 && at + |data| <= |d|
    ensures var d' := WriteSectors(d, at / 512, data);
            && d'[at..at + |data|] == data
            && forall k :: 0 <= k < |d| && !(at <= k < at + |data|) ==> d'[k] == d[k]
  {
  }

  /** Two writes, or two reads, next to each other are one. */
  lemma WriteInParts(d: seq<Byte>, lba: int, k: int, x: seq<Byte>, y: seq<Byte>)
    requires 0 <= lba && |x| == 512 * k && 512 * lba + |x| + |y| <= |d|
    ensures WriteSectors(WriteSectors(d, lba, x), lba + k, y) == WriteSectors(d, lba, x + y)
  {
  }

  lemma ReadInParts(d: seq<Byte>, lba: int, k: int, n: int)
    requires OnDisk(d, lba, n) && 0 <= k <= n
    ensures ReadSectors(d, lba, n) == ReadSectors(d, lba, k) + ReadSectors(d, lba + k, n - k)
  {
  }

  /** A write of whole sectors. */
  datatype Write = Write(lba: int, data: seq<Byte>)

  predicate Fits(w: Write, size: int) {
    0 <= w.lba && |w.data| % 512 == 0 && 512 * w.lba + |w.data| <= size
  }

  function Apply(d: seq<Byte>, ws: seq<Write>): (d': seq<Byte>)
    requires forall i :: 0 <= i < |ws| ==> Fits(ws[i], |d|)
    ensures |d'| == |d|
  {
    if ws == [] then d
    else
      var w := ws[|ws| - 1];
      assert Fits(w, |d|);
      WriteSectors(Apply(d, ws[..|ws| - 1]), w.lba, w.data)
  }

  predicate Touches(w: Write, s: int) {
    w.lba <= s < w.lba + |w.data| / 512
  }

  /** After any run of writes a sector holds what the last write that covers it put there, and its first content if
      there is none. */
  lemma {:induction false} LastWriteWins(d: seq<Byte>, ws: seq<Write>, s: int, i: int)
    requires (forall j :: 0 <= j < |ws| ==> Fits(ws[j], |d|)) && OnDisk(d, s, 1)
    requires -1 <= i < |ws| && (i >= 0 ==> Touches(ws[i], s)) && forall j :: i < j < |ws| ==> !Touches(ws[j], s)
    ensures ReadSectors(Apply(d, ws), s, 1) ==
            if i >= 0 then ws[i].data[512 * (s - ws[i].lba)..512 * (s - ws[i].lba + 1)] else ReadSectors(d, s, 1)
  {
    hide WriteSectors, ReadSectors;
    if ws != [] {
      var w, init := ws[|ws| - 1], ws[..|ws| - 1];
      var n := |w.data| / 512;
      assert |w.data| == 512 * n;
      assert Touches(w, s) <==> w.lba <= s < w.lba + n;
      ReadAfterWrite(Apply(d, init), w.lba, n, w.data, s);
      if i < |ws| - 1 {
        assert !Touches(ws[|ws| - 1], s);
        LastWriteWins(d, init, s, i);
      }
    }
  }
}
