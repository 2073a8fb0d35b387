/** The loops and the recursion of printnum and strtol, proved against NumberText. */
module NumberCode {
  import opened Words
  import opened Division
  import opened NumberText

  /** `char` keeps the low byte of what is put. */
  function Byte(c: int): (b: int)
    ensures 0 <= b < 256
    ensures 0 <= c < 256 ==> b == c
    ensures -128 <= c < 0 ==> b == c + 256
  {
    c % 256
  }

  /** struct sprintbuf over memory: the characters go to `start..ebuf`, and every one is counted. */
  class SprintBuf {
    const mem: array<int>
    const start: nat
    const ebuf: nat
    var buf: nat
    var cnt: int
    ghost var stream: Text
    ghost const before: seq<int>

    /** The buffer holds the stream as far as it fits, and the rest of memory is as it was. */
    ghost predicate Valid()
      reads this, mem
    {
      && start <= ebuf < mem.Length && cnt == |stream| && |before| == mem.Length
      && buf == start + (if |stream| < ebuf - start then |stream| else ebuf - start)
      && (forall k :: start <= k < buf ==> mem[k] == Byte(stream[k - start]))
      && (forall k :: 0 <= k < mem.Length && !(start <= k < buf) ==> mem[k] == before[k])
    }

    constructor (mem: array<int>, start: nat, ebuf: nat)
      requires start <= ebuf < mem.Length
      ensures Valid() && this.mem == mem && this.start == start && this.ebuf == ebuf
      ensures stream == [] && before == mem[..]
    {
      this.mem := mem;
      this.start := start;
      this.ebuf := ebuf;
      buf := start;
      cnt := 0;
      stream := [];
      before := mem[..];
    }

    /** sprintputch */
    method Putch(ch: int)
      requires Valid()
      modifies this, mem
      ensures Valid() && stream == old(stream) + [ch]
    {
      cnt := cnt + 1;
      if buf < ebuf {
        mem[buf] := Byte(ch);
        buf := buf + 1;
      }
      stream := stream + [ch];
    }

    /** printnum, for the numbers and bases with which it comes to an end. */
    method PrintNum(num: Word64, base: Word, width: int, padc: int)
      requires Valid() && Printable(num, base)
      modifies this, mem
      ensures Valid() && stream == old(stream) + Number(num, base, width, padc)
      decreases num
    {
      hide Digits, DigitChar;
      NumberUnfold(num, base, width, padc);
      var result, mod := DoDiv(num, base);
      ghost var was := stream;
      ghost var front := if num >= base then Number(num / base, base, width - 1, padc) else Repeat(padc, width - 1);
      assert was + (front + [DigitChar(num % base)]) == (was + front) + [DigitChar(num % base)];
      if num >= base {
        DigitsStep(num, base);
        PrintNum(result, base, width - 1, padc);
      } else {
        var w := width - 1;
        while w > 0
          invariant Valid() && (width <= 0 || 0 <= w <= width - 1)
          invariant stream + Repeat(padc, w) == was + Repeat(padc, width - 1)
          invariant width <= 0 ==> stream == was
          decreases w
        {
          Putch(padc);
          w := w - 1;
        }
      }
      assert stream == was + front;
      Putch(DigitChar(mod));
    }
  }

  lemma ScanStep(s: Text, i: nat, base: nat, val: int)
    requires i <= |s| && base <= 36
    ensures var d := DigitValue(At(s, i));
            if d < base then i < |s| && ScanDigits(s, i, base, val) == ScanDigits(s, i + 1, base, Long(val * base + d))
            else ScanDigits(s, i, base, val) == (val, i)
  {
    hide Long;
  }

  /** strtol on the NUL-terminated string `s`. */
  method StrToLong(s: Text, base: nat) returns (val: int, end: nat)
    requires base <= 36
    ensures (val, end) == Strtol(s, base)
  {
    hide Long, ScanDigits;
    var i: nat := 0;
    while At(s, i) == SPACE || At(s, i) == TAB
      invariant i <= |s| && SkipBlanks(s, i) == SkipBlanks(s, 0)
      decreases |s| - i
    {
      i := i + 1;
    }
    ghost var blanks := i;
    var neg := false;
    if At(s, i) == PLUS {
      i := i + 1;
    } else if At(s, i) == MINUS {
      i, neg := i + 1, true;
    }
    var b := base;
    if (b == 0 || b == 16) && At(s, i) == ZERO && At(s, i + 1) == LETTER_X {
      i, b := i + 2, 16;
    } else if b == 0 && At(s, i) == ZERO {
      i, b := i + 1, 8;
    } else if b == 0 {
      b := 10;
    }
    assert Prefix(s, blanks, base) == (neg, i, b);
    ghost var first := i;
    val := 0;
    while true
      invariant i <= |s| && ScanDigits(s, i, b, val) == ScanDigits(s, first, b, 0)
      decreases |s| - i
    {
      var c := At(s, i);
      ScanStep(s, i, b, val);
      var dig;
      if 48 <= c <= 57 {
        dig := c - 48;
      } else if 97 <= c <= 122 {
        dig := c - 97 + 10;
      } else if 65 <= c <= 90 {
        dig := c - 65 + 10;
      } else {
        break;
      }
      if dig >= b {
        break;
      }
      i, val := i + 1, Long(val * b + dig);
    }
    end := i;
    val := if neg then Long(-val) else val;
  }
}
