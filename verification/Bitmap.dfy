/** os/ds/bitmap.c: a bitmap stored in bytes, scanned for a run of clear bits. */
module Bitmaps {

  /** How a scan ends. `Panic` is the failed assertion of an exhausted bitmap, before which the byte behind the last
      one has been read; `OverRead` says that the code goes on to test bits that lie behind the last byte. */
  datatype ScanResult = Found(start: nat) | Panic | OverRead

  // ---------------------------------------------------------------- bits of a byte

  function Mask(k: nat): bv8
    requires k < 8
  {
    match k
    case 0 => 0x01
    case 1 => 0x02
    case 2 => 0x04
    case 3 => 0x08
    case 4 => 0x10
    case 5 => 0x20
    case 6 => 0x40
    case _ => 0x80
  }

  /** BITMAP_MASK << k */
  lemma MaskIsShift(k: nat)
    requires k < 8
    ensures Mask(k) == (1 as bv8) << k
  {
  }

  predicate BitSet(b: bv8, k: nat)
    requires k < 8
  {
    b & Mask(k) != 0
  }

  lemma OtherBitsStay(b: bv8, m: bv8, m': bv8)
    requires m & m' == 0
    ensures (b | m) & m' == b & m' && (b & !m) & m' == b & m'
  {
  }

  lemma MasksDiffer(k: nat, j: nat)
    requires k < 8 && j < 8 && k != j
    ensures Mask(k) & Mask(j) == 0
  {
  }

  lemma MaskSelf(b: bv8, k: nat)
    requires k < 8
    ensures BitSet(b | Mask(k), k) && !BitSet(b & !Mask(k), k)
  {
    var m := Mask(k);
    assert m != 0;
    assert (b | m) & m == m;
    assert (b & !m) & m == 0;
  }

  /** `byte & (BITMAP_MASK << k)` as a condition. */
  method TestMask(b: bv8, k: nat) returns (r: bool)
    requires k < 8
    ensures r == BitSet(b, k)
  {
    r := b & Mask(k) != 0;
  }

  /** `byte |= (BITMAP_MASK << k)` */
  method OrMask(b: bv8, k: nat) returns (r: bv8)
    requires k < 8
    ensures forall j :: 0 <= j < 8 ==> BitSet(r, j) == (j == k || BitSet(b, j))
  {
    r := b | Mask(k);
    MaskSelf(b, k);
    forall j | 0 <= j < 8 && j != k ensures BitSet(r, j) == BitSet(b, j) {
      MasksDiffer(k, j);
      OtherBitsStay(b, Mask(k), Mask(j));
    }
  }

  /** `byte &= ~(BITMAP_MASK << k)` */
  method AndNotMask(b: bv8, k: nat) returns (r: bv8)
    requires k < 8
    ensures forall j :: 0 <= j < 8 ==> BitSet(r, j) == (j != k && BitSet(b, j))
  {
    r := b & !Mask(k);
    MaskSelf(b, k);
    forall j | 0 <= j < 8 && j != k ensures BitSet(r, j) == BitSet(b, j) {
      MasksDiffer(k, j);
      OtherBitsStay(b, Mask(k), Mask(j));
    }
  }

  lemma FullByteIsFF(b: bv8)
    ensures b == 0xff <==> forall k :: 0 <= k < 8 ==> BitSet(b, k)
  {
    if forall k :: 0 <= k < 8 ==> BitSet(b, k) {
      assert BitSet(b, 0) && BitSet(b, 1) && BitSet(b, 2) && BitSet(b, 3);
      assert BitSet(b, 4) && BitSet(b, 5) && BitSet(b, 6) && BitSet(b, 7);
    }
  }

  /** The bitmap as a sequence of bits, lowest bit of the first byte first. */
  ghost function BitsOf(bytes: seq<bv8>): (r: seq<bool>)
    ensures |r| == 8 * |bytes|
    ensures forall i :: 0 <= i < |r| ==> r[i] == BitSet(bytes[i / 8], i % 8)
  {
    seq(8 * |bytes|, i requires 0 <= i < 8 * |bytes| => BitSet(bytes[i / 8], i % 8))
  }

  // ---------------------------------------------------------------- what a scan finds

  ghost predicate ClearRun(bits: seq<bool>, s: nat, n: nat) {
    s + n <= |bits| && forall i :: s <= i < s + n ==> !bits[i]
  }

  /** Every bit from `s` on is clear, so a longer run can only be tested behind the bitmap. */
  ghost predicate ClearToEnd(bits: seq<bool>, s: nat) {
    forall i :: s <= i < |bits| ==> !bits[i]
  }

  /** `k` is the lowest clear bit of byte `b`: the one place where the scan tries a run there. */
  ghost predicate Tries(bits: seq<bool>, b: nat, s: nat) {
    8 * b <= s < 8 * b + 8 <= |bits| && !bits[s] && forall i :: 8 * b <= i < s ==> bits[i]
  }

  ghost predicate FullByte(bits: seq<bool>, b: nat) {
    8 * b + 8 <= |bits| && forall i :: 8 * b <= i < 8 * b + 8 ==> bits[i]
  }

  /** The lowest clear bit at or after `i` in its byte. */
  ghost function LowestClear(bits: seq<bool>, b: nat, i: nat): (s: nat)
    requires 8 * b <= i < 8 * b + 8 <= |bits|
    requires forall j :: 8 * b <= j < i ==> bits[j]
    requires !FullByte(bits, b)
    ensures Tries(bits, b, s)
    decreases 8 * b + 8 - i
  {
    if !bits[i] then i else LowestClear(bits, b, i + 1)
  }

  ghost function ScanFrom(bits: seq<bool>, b: nat, n: nat): ScanResult
    requires |bits| % 8 == 0
    decreases |bits| - 8 * b
  {
    if 8 * b >= |bits| then Panic
    else if FullByte(bits, b) then ScanFrom(bits, b + 1, n)
    else
      var s := LowestClear(bits, b, 8 * b);
      if ClearRun(bits, s, n) then Found(s)
      else if ClearToEnd(bits, s) then OverRead
      else ScanFrom(bits, b + 1, n)
  }

  /** A count of 0 wraps: `cnt - 1` is 2^32 - 1, so the code looks for 2^32 clear bits. */
  function RunLength(cnt: nat): (n: nat)
    ensures n >= 1
  {
    if cnt == 0 then 0x1_0000_0000 else cnt
  }

  ghost function ScanBits(bits: seq<bool>, cnt: nat): ScanResult
    requires |bits| % 8 == 0
  {
    ScanFrom(bits, 0, RunLength(cnt))
  }

  /** Whether the test of the first loop, which looks at a byte before it compares the index, looks at the byte
      behind the bitmap: when the scan comes to the end. */
  ghost predicate ReadsBehind(bits: seq<bool>, b: nat, n: nat)
    requires |bits| % 8 == 0
    decreases |bits| - 8 * b
  {
    if 8 * b >= |bits| then true
    else if FullByte(bits, b) then ReadsBehind(bits, b + 1, n)
    else
      var s := LowestClear(bits, b, 8 * b);
      !ClearRun(bits, s, n) && !ClearToEnd(bits, s) && ReadsBehind(bits, b + 1, n)
  }

  ghost predicate ScanReadsBehind(bits: seq<bool>, cnt: nat)
    requires |bits| % 8 == 0
  {
    ReadsBehind(bits, 0, RunLength(cnt))
  }

  // ---------------------------------------------------------------- properties of a scan

  /** The byte behind is read in exactly the scans that panic. */
  lemma {:induction false} BehindIsPanic(bits: seq<bool>, b: nat, n: nat)
    requires |bits| % 8 == 0
    ensures ReadsBehind(bits, b, n) <==> ScanFrom(bits, b, n) == Panic
    decreases |bits| - 8 * b
  {
    if 8 * b < |bits| {
      BehindIsPanic(bits, b + 1, n);
    }
  }

  /** A scan stays inside the bitmap exactly when some byte has its lowest clear bit at the start of a clear run that
      is long enough. */
  lemma InsideExactly(bits: seq<bool>, cnt: nat)
    requires |bits| % 8 == 0
    ensures !ScanReadsBehind(bits, cnt) && !ScanBits(bits, cnt).OverRead?
            <==> exists b: nat, s: nat :: Tries(bits, b, s) && ClearRun(bits, s, RunLength(cnt))
  {
    BehindIsPanic(bits, 0, RunLength(cnt));
    ScanFromExact(bits, 0, RunLength(cnt));
  }

  /** A count of 0 is taken for 2^32, so no bitmap of the kernel has such a run. */
  lemma ScanForNone(bits: seq<bool>)
    requires |bits| % 8 == 0 && |bits| < 0x1_0000_0000
    ensures !ScanBits(bits, 0).Found?
  {
    ScanFromExact(bits, 0, RunLength(0));
  }

  lemma TriesOnce(bits: seq<bool>, b: nat, s: nat, s': nat)
    requires Tries(bits, b, s) && Tries(bits, b, s')
    ensures s == s'
  {
    if s < s' {
      assert false;
    } else if s' < s {
      assert false;
    }
  }

  lemma ScanEnds(bits: seq<bool>, b: nat, n: nat)
    requires |bits| % 8 == 0 && 8 * b >= |bits|
    ensures ScanFrom(bits, b, n) == Panic && ReadsBehind(bits, b, n)
  {
  }

  /** One byte that is not full, with its lowest clear bit. */
  lemma ScanStep(bits: seq<bool>, b: nat, n: nat, s: nat)
    requires |bits| % 8 == 0 && 8 * b < |bits| && Tries(bits, b, s) && n >= 1
    ensures s < |bits| && !bits[s] && (n == 1 ==> ClearRun(bits, s, n))
    ensures ScanFrom(bits, b, n) ==
            if ClearRun(bits, s, n) then Found(s) else if ClearToEnd(bits, s) then OverRead
            else ScanFrom(bits, b + 1, n)
    ensures ReadsBehind(bits, b, n) <==>
            !ClearRun(bits, s, n) && !ClearToEnd(bits, s) && ReadsBehind(bits, b + 1, n)
  {
    assert !FullByte(bits, b);
    TriesOnce(bits, b, s, LowestClear(bits, b, 8 * b));
  }

  /** The scan goes through the bytes in order: the first byte whose run fits wins, and a clear run that
      reaches the end of the bitmap without fitting leads outside of it. */
  lemma {:induction false} ScanFromExact(bits: seq<bool>, b: nat, n: nat)
    requires |bits| % 8 == 0 && n >= 1
    ensures var r := ScanFrom(bits, b, n);
            match r
            case Found(s) =>
              ClearRun(bits, s, n) && (exists d: nat :: b <= d && Tries(bits, d, s)) &&
              (forall d: nat, t: nat :: b <= d && Tries(bits, d, t) && ClearRun(bits, t, n) ==> s <= t)
            case OverRead =>
              (forall d: nat, t: nat :: b <= d && Tries(bits, d, t) ==> !ClearRun(bits, t, n)) &&
              (exists d: nat, t: nat :: b <= d && Tries(bits, d, t) && ClearToEnd(bits, t))
            case Panic =>
              forall d: nat, t: nat :: b <= d && Tries(bits, d, t) ==> !ClearRun(bits, t, n) && !ClearToEnd(bits, t)
    decreases |bits| - 8 * b
  {
    if 8 * b >= |bits| {
    } else if FullByte(bits, b) {
      ScanFromExact(bits, b + 1, n);
      assert forall t: nat :: !Tries(bits, b, t);
    } else {
      hide ScanFrom, ClearRun, ClearToEnd, FullByte;
      var s := LowestClear(bits, b, 8 * b);
      ScanStep(bits, b, n, s);
      forall t: nat | Tries(bits, b, t) ensures t == s {
        TriesOnce(bits, b, s, t);
      }
      if !ClearRun(bits, s, n) && !ClearToEnd(bits, s) {
        ScanFromExact(bits, b + 1, n);
      }
    }
  }

  /** Total correctness for callers: a clear run of `cnt` bits that starts on a byte boundary is enough for
      the scan to stay inside the bitmap and to find a run that starts no later. */
  lemma ScanFindsAlignedRun(bits: seq<bool>, cnt: nat, b: nat)
    requires |bits| % 8 == 0 && cnt >= 1
    requires ClearRun(bits, 8 * b, cnt)
    ensures ScanBits(bits, cnt).Found?
    ensures ClearRun(bits, ScanBits(bits, cnt).start, cnt) && ScanBits(bits, cnt).start <= 8 * b
  {
    ScanFromExact(bits, 0, cnt);
    assert Tries(bits, b, 8 * b);
  }

  /** Any clear run of `cnt + 7` bits is long enough, wherever it starts. */
  lemma ScanFindsLongRun(bits: seq<bool>, cnt: nat, s: nat)
    requires |bits| % 8 == 0 && cnt >= 1
    requires ClearRun(bits, s, cnt + 7)
    ensures ScanBits(bits, cnt).Found?
    ensures ClearRun(bits, ScanBits(bits, cnt).start, cnt) && ScanBits(bits, cnt).start <= s + 7
  {
    ScanFindsAlignedRun(bits, cnt, (s + 7) / 8);
  }

  /** A single bit is found exactly when there is a clear one, and then it is the lowest; otherwise the scan
      panics, and it has read the byte behind the bitmap. */
  lemma ScanForOne(bits: seq<bool>)
    requires |bits| % 8 == 0
    ensures ScanBits(bits, 1).Found? <==> exists i :: 0 <= i < |bits| && !bits[i]
    ensures ScanReadsBehind(bits, 1) <==> forall i :: 0 <= i < |bits| ==> bits[i]
    ensures ScanBits(bits, 1).Found? ==>
              var s := ScanBits(bits, 1).start; s < |bits| && !bits[s] && forall i :: 0 <= i < s ==> bits[i]
    ensures !ScanBits(bits, 1).OverRead?
  {
    ScanFromExact(bits, 0, 1);
    forall i: nat | i < |bits| && !bits[i]
      ensures ScanBits(bits, 1).Found? && ScanBits(bits, 1).start <= i
    {
      var b := i / 8;
      assert !FullByte(bits, b);
      var s := LowestClear(bits, b, 8 * b);
      assert s <= i && ClearRun(bits, s, 1);
    }
    forall d: nat, t: nat | Tries(bits, d, t) ensures ClearRun(bits, t, 1) {
    }
    BehindIsPanic(bits, 0, 1);
  }

  /** Runs that start inside a byte can be missed, even though they fit: only the lowest clear bit of each
      byte is tried. Here bits 2..5 are free, three are wanted, and the scan panics. */
  lemma ScanMissesInnerRun()
    ensures var bits := [false, true, false, false, false, false, true, true];
            ClearRun(bits, 2, 3) && ScanBits(bits, 3) == Panic
  {
    var bits := [false, true, false, false, false, false, true, true];
    assert !bits[0] && bits[1];
    assert Tries(bits, 0, 0);
    assert !FullByte(bits, 0);
    TriesOnce(bits, 0, 0, LowestClear(bits, 0, 0));
    assert ScanFrom(bits, 1, 3) == Panic;
  }

  /** At the end of the bitmap the inner loop does not stop: with the last byte clear and nine bits wanted it
      tests a bit that is not part of the bitmap. */
  lemma ScanLeavesBitmap()
    ensures var bits := [false, false, false, false, false, false, false, false];
            ScanBits(bits, 9) == OverRead
  {
    var bits := [false, false, false, false, false, false, false, false];
    assert Tries(bits, 0, 0);
    assert !FullByte(bits, 0);
    TriesOnce(bits, 0, 0, LowestClear(bits, 0, 0));
  }

  // ---------------------------------------------------------------- the code

  class Bitmap {
    /** `bitmap_bits`; its length is `bitmap_len`. */
    const bytes: array<bv8>

    ghost function Bits(): (r: seq<bool>)
      reads bytes
      ensures |r| == 8 * bytes.Length
    {
      BitsOf(bytes[..])
    }

    constructor (len: nat)
      ensures fresh(bytes) && bytes.Length == len
      ensures forall i :: 0 <= i < 8 * len ==> !Bits()[i]
    {
      bytes := new bv8[len];
      new;
      Clear();
    }

    /** bitmap_init */
    method Clear()
      modifies bytes
      ensures forall i :: 0 <= i < 8 * bytes.Length ==> !Bits()[i]
    {
      for i := 0 to bytes.Length
        invariant forall j :: 0 <= j < i ==> bytes[j] == 0
      {
        bytes[i] := 0;
      }
    }

    /** bitmap_scan_test */
    method ScanTest(bitIdx: nat) returns (set_: bool)
      requires bitIdx < 8 * bytes.Length
      ensures set_ == Bits()[bitIdx]
    {
      var byteIdx, bitOdd := bitIdx / 8, bitIdx % 8;
      set_ := TestMask(bytes[byteIdx], bitOdd);
    }

    lemma ByteBits(b: nat)
      requires b < bytes.Length
      ensures forall k {:trigger BitSet(bytes[b], k)} :: 0 <= k < 8 ==> Bits()[8 * b + k] == BitSet(bytes[b], k)
    {
      hide BitSet, Mask;
    }

    /** A look at byte `i`. Behind the bitmap it finds whatever is stored there, and that is recorded. */
    method Look(i: nat) returns (b: bv8, ghost behind: bool)
      requires i <= bytes.Length
      ensures behind <==> i == bytes.Length
      ensures !behind ==> b == bytes[i]
    {
      if i < bytes.Length {
        b := bytes[i];
      } else {
        b := *;
      }
      behind := i >= bytes.Length;
    }

    /** bitmap_scan; `behind` tells whether its first loop has looked at the byte behind the bitmap. */
    method Scan(cnt: nat) returns (r: ScanResult, ghost behind: bool)
      ensures r == ScanBits(Bits(), cnt)
      ensures behind <==> ScanReadsBehind(Bits(), cnt)
    {
      hide BitSet, Mask, BitsOf, ScanFrom, ReadsBehind, ClearRun, ClearToEnd, Tries, FullByte;
      var idxByte := 0;
      ghost var bits, n := Bits(), RunLength(cnt);
      behind := false;
      while true
        invariant 0 <= idxByte <= bytes.Length && !behind
        invariant ScanFrom(bits, 0, n) == ScanFrom(bits, idxByte, n)
        invariant ReadsBehind(bits, 0, n) == ReadsBehind(bits, idxByte, n)
        decreases bytes.Length - idxByte
      {
        idxByte, behind := SkipFullBytes(idxByte, n);
        if idxByte == bytes.Length {
          ScanEnds(bits, idxByte, n);
          return Panic, behind;
        }
        var idxBit := LowestClearBit(idxByte);
        var bitIdxStart := 8 * idxByte + idxBit;
        ScanStep(bits, idxByte, n, bitIdxStart);
        if cnt == 1 {
          return Found(bitIdxStart), behind;
        }
        var outcome := TestRun(bitIdxStart, RunLength(cnt));
        if outcome != Panic {
          return outcome, behind;
        }
        idxByte := idxByte + 1;
      }
    }

    /** The first inner loop of bitmap_scan: the byte is looked at before the index is compared. */
    method SkipFullBytes(from: nat, ghost n: nat) returns (idxByte: nat, ghost behind: bool)
      requires from <= bytes.Length
      ensures from <= idxByte <= bytes.Length && (behind <==> idxByte == bytes.Length)
      ensures idxByte < bytes.Length ==> bytes[idxByte] != 0xff && !FullByte(Bits(), idxByte)
      ensures ScanFrom(Bits(), from, n) == ScanFrom(Bits(), idxByte, n)
      ensures ReadsBehind(Bits(), from, n) == ReadsBehind(Bits(), idxByte, n)
    {
      hide BitSet, Mask, BitsOf;
      idxByte := from;
      ghost var bits := Bits();
      var byte;
      byte, behind := Look(idxByte);
      while byte == 0xff && idxByte < bytes.Length
        invariant from <= idxByte <= bytes.Length && (behind <==> idxByte == bytes.Length)
        invariant !behind ==> byte == bytes[idxByte]
        invariant ScanFrom(bits, from, n) == ScanFrom(bits, idxByte, n)
        invariant ReadsBehind(bits, from, n) == ReadsBehind(bits, idxByte, n)
        decreases bytes.Length - idxByte
      {
        FullByteIsFF(bytes[idxByte]);
        ByteBits(idxByte);
        assert FullByte(bits, idxByte) by {
          forall i | 8 * idxByte <= i < 8 * idxByte + 8 ensures bits[i] {
            assert BitSet(bytes[idxByte], i - 8 * idxByte);
          }
        }
        idxByte := idxByte + 1;
        byte, behind := Look(idxByte);
      }
      if idxByte < bytes.Length {
        FullByteIsFF(bytes[idxByte]);
        ByteBits(idxByte);
      }
    }

    /** The loop over `idx_bit` in bitmap_scan. */
    method LowestClearBit(idxByte: nat) returns (idxBit: nat)
      requires idxByte < bytes.Length && !FullByte(Bits(), idxByte)
      ensures idxBit < 8 && Tries(Bits(), idxByte, 8 * idxByte + idxBit)
    {
      hide BitSet, Mask, BitsOf;
      ghost var bits, base := Bits(), 8 * idxByte;
      idxBit := 0;
      var taken := ScanTest(8 * idxByte);
      while taken
        invariant 0 <= idxBit < 8
        invariant forall i :: base <= i < base + idxBit ==> bits[i]
        invariant taken == bits[base + idxBit]
        decreases 8 - idxBit
      {
        idxBit := idxBit + 1;
        assert idxBit < 8;
        taken := ScanTest(8 * idxByte + idxBit);
      }
    }

    /** The loop over `next_bit` in bitmap_scan, from a clear bit `start`; `Panic` stands for a set bit in the
        run, upon which the scan goes on with the next byte. */
    method TestRun(start: nat, n: nat) returns (r: ScanResult)
      requires start < 8 * bytes.Length && !Bits()[start] && n >= 1
      ensures r == if ClearRun(Bits(), start, n) then Found(start)
                   else if ClearToEnd(Bits(), start) then OverRead else Panic
    {
      hide BitSet, Mask, BitsOf;
      ghost var bits := Bits();
      var count, nextBit := n - 1, start + 1;
      while count > 0
        invariant nextBit + count == start + n
        invariant start < nextBit <= |bits|
        invariant forall i :: start <= i < nextBit ==> !bits[i]
      {
        if nextBit >= 8 * bytes.Length {
          return OverRead;
        }
        var taken := ScanTest(nextBit);
        if taken {
          return Panic;
        }
        count := count - 1;
        nextBit := nextBit + 1;
      }
      return Found(start);
    }

    /** bitmap_set; `false` is the failed assertion on `value`. */
    method Set(bitIdx: nat, value: int) returns (ok: bool)
      requires bitIdx < 8 * bytes.Length
      modifies bytes
      ensures ok <==> value == 0 || value == 1
      ensures Bits() == if ok then old(Bits())[bitIdx := value == 1] else old(Bits())
    {
      if value != 0 && value != 1 {
        return false;
      }
      hide BitSet, Mask;
      var byteIdx, bitOdd := bitIdx / 8, bitIdx % 8;
      ghost var was := old(Bits());
      var b;
      if value != 0 {
        b := OrMask(bytes[byteIdx], bitOdd);
      } else {
        b := AndNotMask(bytes[byteIdx], bitOdd);
      }
      bytes[byteIdx] := b;
      forall j | 0 <= j < |was| ensures Bits()[j] == was[bitIdx := value == 1][j] {
      }
      assert Bits() == was[bitIdx := value == 1];
      return true;
    }
  }
}
