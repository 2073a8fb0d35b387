/** do_div of os/include/x86.h: division of a 64-bit number by a 32-bit number with 32-bit instructions. */
module Division {
  import opened Words

  const W := 0x1_0000_0000
  type Word64 = x: int | 0 <= x < 0x1_0000_0000_0000_0000

  lemma DivUnique(n: int, b: int, q: int, r: int)
    requires b > 0 && n == q * b + r && 0 <= r < b
    ensures q == n / b && r == n % b
  {
    assert n == (n / b) * b + n % b;
    var d := q - n / b;
    assert d * b == n % b - r;
    assert d >= 1 ==> d * b >= b;
    assert d <= -1 ==> d * b <= -b;
  }

  /** The quotient of the second division fits into 32 bits because the upper half is a remainder. */
  lemma QuotientFits(upper: int, low: int, b: int)
    requires 0 <= upper < b && 0 <= low < W
    ensures 0 <= (upper * W + low) / b < W
  {
    var d := upper * W + low;
    assert d < b * W;
    var q, r := d / b, d % b;
    assert d == q * b + r;
    assert q >= W ==> q * b >= W * b;
    assert q <= -1 ==> q * b <= -b;
  }

  lemma TwoSteps(n: int, b: int, high: int, low: int)
    requires b > 0 && 0 <= low < W && 0 <= high && n == high * W + low
    ensures var d := high % b * W + low; n / b == high / b * W + d / b && n % b == d % b
  {
    var hq, up := high / b, high % b;
    var d := up * W + low;
    assert high == hq * b + up && d == (d / b) * b + d % b;
    assert (hq * W + d / b) * b == hq * b * W + (d / b) * b;
    DivUnique(n, b, hq * W + d / b, d % b);
  }

  /** `divl`: the processor divides edx:eax, and raises an exception when the quotient has more than 32 bits. */
  method Divl(upper: Word, low: Word, b: Word) returns (q: Word, r: Word)
    requires b > 0 && (upper * W + low) / b < W
    ensures q == (upper * W + low) / b && r == (upper * W + low) % b
  {
    q := (upper * W + low) / b;
    r := (upper * W + low) % b;
  }

  /** do_div: `n` becomes the quotient, the value is the remainder. */
  method DoDiv(n: Word64, b: Word) returns (q: Word64, mod: Word)
    requires b > 0
    ensures q == n / b && mod == n % b
  {
    var low: Word, high: Word := n % W, n / W;
    var upper := high;
    if high != 0 {
      upper := high % b;
      high := high / b;
    }
    QuotientFits(upper, low, b);
    TwoSteps(n, b, n / W, low);
    low, mod := Divl(upper, low, b);
    q := high * W + low;
  }
}
