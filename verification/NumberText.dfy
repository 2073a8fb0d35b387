/** printnum of os/kernel/printfmt.c and strtol of os/kernel/string.c. Characters are their codes. */
module NumberText {

  type Text = seq<int>

  const SPACE := 32
  const TAB := 9
  const MINUS := 45
  const PLUS := 43
  const ZERO := 48
  const LETTER_X := 120

  /** "0123456789abcdef"[d] */
  function DigitChar(d: int): (c: int)
    requires 0 <= d < 16
  {
    if d < 10 then 48 + d else 97 + d - 10
  }

  // ---------------------------------------------------------------- printnum

  /** The bases with which printnum comes back; with base 1 only from the number 0. */
  predicate Printable(num: nat, base: nat) {
    1 <= base <= 16 && (base >= 2 || num == 0)
  }

  /** The digits of a number, most significant first. */
  function Digits(num: nat, base: nat): (s: Text)
    requires Printable(num, base)
    ensures |s| >= 1
  {
    if num < base then [DigitChar(num)] else Digits(num / base, base) + [DigitChar(num % base)]
  }

  function Repeat(c: int, n: int): (s: Text)
    ensures |s| == if n > 0 then n else 0
    ensures forall i :: 0 <= i < |s| ==> s[i] == c
    decreases if n > 0 then n else 0
  {
    if n <= 0 then [] else [c] + Repeat(c, n - 1)
  }

  /** What printnum prints: the digits, padded on the left to the width. */
  function Number(num: nat, base: nat, width: int, padc: int): Text
    requires Printable(num, base)
  {
    Repeat(padc, width - |Digits(num, base)|) + Digits(num, base)
  }

  /** The value that digits denote. */
  function Value(ds: seq<int>, base: nat): int {
    if ds == [] then 0 else Value(ds[..|ds| - 1], base) * base + ds[|ds| - 1]
  }

  /** The recursion of printnum: the preceding digits first, in a field that is one narrower. */
  lemma NumberUnfold(num: nat, base: nat, width: int, padc: int)
    requires Printable(num, base)
    ensures Number(num, base, width, padc) ==
            (if num >= base then Number(num / base, base, width - 1, padc) else Repeat(padc, width - 1))
            + [DigitChar(num % base)]
  {
    hide DigitChar, Digits;
    DigitsStep(num, base);
    if num < base {
      assert num % base == num;
    } else {
      var q := Digits(num / base, base);
      assert |Digits(num, base)| == |q| + 1;
      assert Repeat(padc, width - |q| - 1) + (q + [DigitChar(num % base)])
          == (Repeat(padc, width - 1 - |q|) + q) + [DigitChar(num % base)];
    }
  }

  // ---------------------------------------------------------------- which bases come to an end

  /** The argument `num` of the k-th nested call of printnum, if there is one. */
  function Quotient(num: nat, base: nat, k: nat): nat
    requires base > 0
  {
    if k == 0 then num else Quotient(num, base, k - 1) / base
  }

  /** The nested calls come to an end, that is, some quotient is below the base, exactly for base 2 and more, and for
      the number 0. The comment of printnum allows base 1 for all numbers. */
  lemma PrintnumEnds(num: nat, base: nat)
    requires base > 0
    ensures (exists k: nat :: Quotient(num, base, k) < base) <==> base >= 2 || num == 0
  {
    if base >= 2 {
      var k := SmallQuotient(num, base, 0);
    } else {
      forall k: nat ensures Quotient(num, base, k) == num {
        QuotientByOne(num, k);
      }
      assert Quotient(num, base, 0) == num;
    }
  }

  lemma {:induction false} QuotientByOne(num: nat, k: nat)
    ensures Quotient(num, 1, k) == num
  {
    if k > 0 {
      QuotientByOne(num, k - 1);
    }
  }

  lemma {:induction false} SmallQuotient(num: nat, base: nat, from: nat) returns (k: nat)
    requires base >= 2
    ensures Quotient(num, base, k) < base
    decreases Quotient(num, base, from)
  {
    var q := Quotient(num, base, from);
    if q < base {
      k := from;
    } else {
      QuotientShrinks(q, base);
      k := SmallQuotient(num, base, from + 1);
    }
  }

  lemma QuotientShrinks(q: nat, base: nat)
    requires 2 <= base <= q
    ensures q / base < q
  {
    DivMod(q, base);
    SmallerFactor(q, q / base, base, q % base);
  }

  lemma SmallerFactor(q: nat, d: nat, base: nat, r: nat)
    requires q == d * base + r && base >= 2 && q > 0
    ensures d < q
  {
    var k := base - 2;
    assert d * base == 2 * d + d * k;
    if d > 0 {
      assert d * k >= 0;
    }
  }

  /** With base 1, printing 1 calls itself with 1 again and again. */
  lemma BaseOneNeverEnds(k: nat)
    ensures Quotient(1, 1, k) >= 1
  {
    QuotientByOne(1, k);
  }

  // ---------------------------------------------------------------- strtol

  function At(s: Text, i: nat): int {
    if i < |s| then s[i] else 0
  }

  /** The digit that a character stands for; 36 for a character that is none. */
  function DigitValue(c: int): (d: nat) {
    if 48 <= c <= 57 then c - 48
    else if 97 <= c <= 122 then c - 97 + 10
    else if 65 <= c <= 90 then c - 65 + 10
    else 36
  }

  /** `long` has 32 bits here, and the compiled code wraps around. */
  function Long(x: int): (r: int)
    ensures -0x8000_0000 <= r < 0x8000_0000
    ensures -0x8000_0000 <= x < 0x8000_0000 ==> r == x
  {
    (x + 0x8000_0000) % 0x1_0000_0000 - 0x8000_0000
  }

  function SkipBlanks(s: Text, i: nat): (j: nat)
    requires i <= |s|
    ensures i <= j <= |s|
    decreases |s| - i
  {
    if At(s, i) == SPACE || At(s, i) == TAB then SkipBlanks(s, i + 1) else i
  }

  /** The loop over the digits: the value and where it stops. */
  function ScanDigits(s: Text, i: nat, base: nat, val: int): (r: (int, nat))
    requires i <= |s| && base <= 36
    ensures i <= r.1 <= |s|
    decreases |s| - i
  {
    var d := DigitValue(At(s, i));
    if d < base then ScanDigits(s, i + 1, base, Long(val * base + d)) else (val, i)
  }

  /** Sign, prefix and base that strtol finds behind the blanks. */
  function Prefix(s: Text, i: nat, base: nat): (r: (bool, nat, nat))
    requires i <= |s| && base <= 36
    ensures i <= r.1 <= |s| && r.2 <= 36
  {
    var neg := At(s, i) == MINUS;
    var j := if At(s, i) == PLUS || neg then i + 1 else i;
    if (base == 0 || base == 16) && At(s, j) == ZERO && At(s, j + 1) == LETTER_X then (neg, j + 2, 16)
    else if base == 0 && At(s, j) == ZERO then (neg, j + 1, 8)
    else (neg, j, if base == 0 then 10 else base)
  }

  /** strtol on a string without NUL inside: the value and the end of what was read. */
  function Strtol(s: Text, base: nat): (r: (int, nat))
    requires base <= 36
    ensures r.1 <= |s|
  {
    var (neg, j, b) := Prefix(s, SkipBlanks(s, 0), base);
    var (val, e) := ScanDigits(s, j, b, 0);
    (if neg then Long(-val) else val, e)
  }

  // ---------------------------------------------------------------- digits denote their number

  function Vals(t: Text): (v: seq<int>)
    ensures |v| == |t| && forall i :: 0 <= i < |t| ==> v[i] == DigitValue(t[i])
  {
    seq(|t|, i requires 0 <= i < |t| => DigitValue(t[i]))
  }

  predicate IsDigits(t: Text, base: nat) {
    forall i :: 0 <= i < |t| ==> DigitValue(t[i]) < base && (48 <= t[i] <= 57 || 97 <= t[i] <= 102)
  }

  /** Digits of the base, in small or capital letters. */
  predicate Below(t: Text, base: nat) {
    forall i :: 0 <= i < |t| ==> DigitValue(t[i]) < base
  }

  /** A further digit. */
  lemma ValueAppend(t: Text, c: int, base: nat)
    ensures Value(Vals(t + [c]), base) == Value(Vals(t), base) * base + DigitValue(c)
  {
    assert Vals(t + [c])[..|t|] == Vals(t);
  }

  lemma DivMod(n: nat, b: nat)
    requires b > 0
    ensures n == n / b * b + n % b && 0 <= n % b < b
  {
  }

  lemma DigitCharValue(d: int)
    requires 0 <= d < 16
    ensures DigitValue(DigitChar(d)) == d && (48 <= DigitChar(d) <= 57 || 97 <= DigitChar(d) <= 102)
  {
  }

  lemma IsDigitsAppend(t: Text, c: int, base: nat)
    requires IsDigits(t, base) && DigitValue(c) < base && (48 <= c <= 57 || 97 <= c <= 102)
    ensures IsDigits(t + [c], base)
  {
    hide DigitValue;
  }

  /** The definition of Digits, and why its recursion ends. */
  lemma DigitsStep(num: nat, base: nat)
    requires Printable(num, base)
    ensures num < base ==> Digits(num, base) == [DigitChar(num)]
    ensures num >= base ==> 1 <= num / base < num
    ensures num >= base ==> Digits(num, base) == Digits(num / base, base) + [DigitChar(num % base)]
  {
    hide DigitChar;
  }

  lemma {:induction false} DigitsDenote(num: nat, base: nat)
    requires 2 <= base <= 16
    ensures IsDigits(Digits(num, base), base) && Value(Vals(Digits(num, base)), base) == num
  {
    hide DigitChar, DigitValue, IsDigits, Value, Vals, Digits;
    DigitsStep(num, base);
    if num < base {
      DigitCharValue(num);
      OneDigit(DigitChar(num), base);
    } else {
      DivMod(num, base);
      var q, m := num / base, num % base;
      DigitCharValue(m);
      DigitsDenote(q, base);
      IsDigitsAppend(Digits(q, base), DigitChar(m), base);
      ValueAppend(Digits(q, base), DigitChar(m), base);
    }
  }

  lemma OneDigit(c: int, base: nat)
    requires DigitValue(c) < base && (48 <= c <= 57 || 97 <= c <= 102)
    ensures IsDigits([c], base) && Value(Vals([c]), base) == DigitValue(c)
  {
    hide DigitValue;
    assert Vals([c])[..0] == [];
  }

  lemma DigitCharZero(d: int)
    requires 0 <= d < 16
    ensures DigitChar(d) == ZERO <==> d == 0
  {
  }

  /** No more digits than needed: the first one is 0 only for the number 0. */
  lemma {:induction false} NoLeadingZero(num: nat, base: nat)
    requires 2 <= base <= 16
    ensures Digits(num, base)[0] == ZERO <==> num == 0
  {
    hide DigitChar, DigitValue, IsDigits, Value, Vals, Digits;
    DigitsStep(num, base);
    if num >= base {
      NoLeadingZero(num / base, base);
    } else {
      DigitCharZero(num);
    }
  }

  /** Zeros in front do not change the value. */
  lemma {:induction false} PaddedValue(p: int, t: Text, base: nat)
    ensures Value(Vals(Repeat(ZERO, p) + t), base) == Value(Vals(t), base)
    decreases |t|, if p > 0 then p else 0
  {
    hide DigitValue;
    if t != [] {
      var init, c := t[..|t| - 1], t[|t| - 1];
      assert t == init + [c] && Repeat(ZERO, p) + t == (Repeat(ZERO, p) + init) + [c];
      PaddedValue(p, init, base);
      ValueAppend(init, c, base);
      ValueAppend(Repeat(ZERO, p) + init, c, base);
    } else if p > 0 {
      PaddedValue(p - 1, [], base);
      ZerosAppend(p);
      ValueAppend(Repeat(ZERO, p - 1) + [], ZERO, base);
      assert Value(Vals([]), base) == 0 && DigitValue(ZERO) == 0 by {
        ZeroDigit();
      }
    } else {
      assert Repeat(ZERO, p) + t == t;
    }
  }

  lemma ZeroDigit()
    ensures DigitValue(ZERO) == 0
  {
  }

  lemma ZerosAppend(p: int)
    requires p > 0
    ensures Repeat(ZERO, p) + [] == (Repeat(ZERO, p - 1) + []) + [ZERO]
  {
  }

  // ---------------------------------------------------------------- reading digits

  lemma LongAdd(x: int, k: int)
    ensures Long(x + k * 0x1_0000_0000) == Long(x)
  {
  }

  /** Wrapping at every step is wrapping once. */
  lemma LongStep(v: int, base: nat, d: int)
    ensures Long(Long(v) * base + d) == Long(v * base + d)
  {
    var k := (v - Long(v)) / 0x1_0000_0000;
    assert v == Long(v) + k * 0x1_0000_0000;
    assert v * base == Long(v) * base + k * base * 0x1_0000_0000;
    LongAdd(Long(v) * base + d, k * base);
  }

  /** After `k` digits of a run `ds` that starts at `i`, the accumulator holds their value. */
  lemma {:induction false} ScanFirst(s: Text, i: nat, ds: Text, base: nat, k: nat)
    requires base <= 36 && k <= |ds| && i + |ds| <= |s| && s[i..i + |ds|] == ds && Below(ds, base)
    ensures ScanDigits(s, i, base, 0) == ScanDigits(s, i + k, base, Long(Value(Vals(ds[..k]), base)))
  {
    hide DigitValue, Long;
    if k == 0 {
      assert Vals(ds[..0]) == [];
      LongZero();
    } else {
      ScanFirst(s, i, ds, base, k - 1);
      var v, d := Value(Vals(ds[..k - 1]), base), DigitValue(ds[k - 1]);
      assert s[i + k - 1] == s[i..i + |ds|][k - 1] == ds[k - 1];
      assert ds[..k] == ds[..k - 1] + [ds[k - 1]];
      ValueAppend(ds[..k - 1], ds[k - 1], base);
      hide Value;
      LongStep(v, base, d);
      assert d < base && At(s, i + k - 1) == ds[k - 1];
    }
  }

  lemma LongZero()
    ensures Long(0) == 0
  {
  }

  /** A run of digits up to the end of the string is read completely. */
  lemma ScanAll(s: Text, i: nat, base: nat)
    requires base <= 36 && i <= |s| && IsDigits(s[i..], base)
    ensures ScanDigits(s, i, base, 0) == (Long(Value(Vals(s[i..]), base)), |s|)
  {
    var ds := s[i..];
    assert ds[..|ds|] == ds;
    ScanFirst(s, i, ds, base, |ds|);
  }

  // ---------------------------------------------------------------- the round trip

  lemma {:induction false} SkipPads(p: int, t: Text, i: nat)
    requires i <= (if p > 0 then p else 0)
    requires t == [] || (t[0] != SPACE && t[0] != TAB)
    ensures SkipBlanks(Repeat(SPACE, p) + t, i) == if p > 0 then p else 0
    decreases p - i
  {
    if i < p {
      SkipPads(p, t, i + 1);
    }
  }

  /** The padding characters that vprintfmt passes to printnum. */
  predicate IsPad(c: int) {
    c == SPACE || c == ZERO || c == MINUS
  }

  /** What strtol makes of the text that printnum prints, with base 8, 10 or 16 and any width. Padded by blanks or
      zeros it is read completely, as a 32-bit long. The flag '-' does not align to the left: printnum pads with the
      character itself, so that one of them turns the number into its negative, and two of them end the reading. */
  lemma RoundTrip(num: nat, base: nat, width: int, padc: int)
    requires (base == 8 || base == 10 || base == 16) && IsPad(padc)
    ensures var s, n := Number(num, base, width, padc), |Digits(num, base)|;
            Strtol(s, base) ==
            if padc != MINUS || width <= n then (Long(num), |s|)
            else if width == n + 1 then (Long(-(num as int)), |s|) else (0, 1)
  {
    hide Digits, Number, Strtol, Long;
    if padc == MINUS {
      MinusPadded(num, base, width);
    } else {
      BlankOrZeroPadded(num, base, width, padc);
    }
  }

  lemma BlankOrZeroPadded(num: nat, base: nat, width: int, padc: int)
    requires (base == 8 || base == 10 || base == 16) && (padc == SPACE || padc == ZERO)
    ensures var s := Number(num, base, width, padc); Strtol(s, base) == (Long(num), |s|)
  {
    hide Long, Digits, Value, Vals, ScanDigits, Prefix, DigitValue;
    var ds := Digits(num, base);
    var p := width - |ds|;
    var s := Number(num, base, width, padc);
    DigitsDenote(num, base);
    if padc == SPACE {
      DigitIsNoBlank(ds, base);
      SkipPads(p, ds, 0);
      var j := if p > 0 then p else 0;
      assert s[j..] == ds;
      NoPrefix(s, j, base);
      ScanAll(s, j, base);
    } else {
      hide SkipBlanks;
      PaddedValue(p, ds, base);
      assert s[0..] == s == Repeat(ZERO, p) + ds;
      ZeroDigit();
      NoPrefix(s, 0, base);
      ScanAll(s, 0, base);
    }
  }

  lemma MinusPadded(num: nat, base: nat, width: int)
    requires base == 8 || base == 10 || base == 16
    ensures var s, n := Number(num, base, width, MINUS), |Digits(num, base)|;
            Strtol(s, base) ==
            if width <= n then (Long(num), |s|) else if width == n + 1 then (Long(-(num as int)), |s|) else (0, 1)
  {
    hide Long, Digits, Value, Vals, ScanDigits, Prefix, DigitValue, IsDigits, Strtol, SkipBlanks;
    var ds := Digits(num, base);
    if width <= |ds| {
      assert Repeat(MINUS, width - |ds|) == Repeat(SPACE, width - |ds|) == [];
      BlankOrZeroPadded(num, base, width, SPACE);
    } else if width == |ds| + 1 {
      assert Repeat(MINUS, 1) == [MINUS];
      NegatedDigits(num, base);
    } else {
      var s := Number(num, base, width, MINUS);
      assert s[0] == MINUS && s[1] == MINUS;
      TwoMinuses(s, base);
    }
  }

  /** A sign directly before the digits. */
  lemma NegatedDigits(num: nat, base: nat)
    requires base == 8 || base == 10 || base == 16
    ensures var s := [MINUS] + Digits(num, base); Strtol(s, base) == (Long(-(num as int)), |s|)
  {
    hide Long, DigitValue, Digits, Value, Vals, ScanDigits, Prefix, SkipBlanks;
    var s := [MINUS] + Digits(num, base);
    DigitsDenote(num, base);
    assert s[1..] == Digits(num, base);
    MinusPrefix(s, base);
    ScanAll(s, 1, base);
    LongNeg(num);
  }

  lemma MinusPrefix(s: Text, base: nat)
    requires s != [] && s[0] == MINUS && IsDigits(s[1..], base) && 0 < base <= 36
    ensures SkipBlanks(s, 0) == 0 && Prefix(s, 0, base) == (true, 1, base)
  {
    if |s| > 2 {
      assert s[2] == s[1..][1];
    }
  }

  lemma TwoMinuses(s: Text, base: nat)
    requires |s| >= 2 && s[0] == MINUS && s[1] == MINUS && 0 < base <= 36
    ensures Strtol(s, base) == (0, 1)
  {
    assert Prefix(s, 0, base) == (true, 1, base);
  }

  lemma DigitIsNoBlank(ds: Text, base: nat)
    requires IsDigits(ds, base) && ds != []
    ensures ds[0] != SPACE && ds[0] != TAB
  {
  }

  /** Digits are taken for neither blanks, nor a sign, nor a prefix. */
  lemma NoPrefix(s: Text, j: nat, base: nat)
    requires j < |s| && IsDigits(s[j..], base) && 0 < base <= 36
    ensures SkipBlanks(s, j) == j && Prefix(s, j, base) == (false, j, base)
  {
    assert s[j] == s[j..][0];
    if j + 1 < |s| {
      assert s[j + 1] == s[j..][1];
    }
  }

  /** Exactly when all of the text is read as the 32-bit value of the number, and exactly when it is read as the
      number itself. */
  lemma RoundTripExact(num: nat, base: nat, width: int, padc: int)
    requires (base == 8 || base == 10 || base == 16) && IsPad(padc)
    ensures var s, n := Number(num, base, width, padc), |Digits(num, base)|;
            && (Strtol(s, base) == (Long(num), |s|) <==>
                padc != MINUS || width <= n || (width == n + 1 && num % 0x8000_0000 == 0))
            && (Strtol(s, base) == (num, |s|) <==>
                num < 0x8000_0000 && (padc != MINUS || width <= n || (width == n + 1 && num == 0)))
  {
    RoundTrip(num, base, width, padc);
    hide Digits, Strtol;
    LongNegates(num);
  }

  lemma LongNegates(num: nat)
    ensures Long(-(num as int)) == Long(num) <==> num % 0x8000_0000 == 0
    ensures Long(num) == num <==> num < 0x8000_0000
    ensures Long(-(num as int)) == num <==> num == 0
  {
  }

  // ---------------------------------------------------------------- signed numbers

  /** What %d prints. */
  function Signed(n: int, width: int, padc: int): Text {
    if n < 0 then [MINUS] + Number(-n, 10, width, padc) else Number(n, 10, width, padc)
  }

  lemma LongNeg(x: int)
    ensures Long(-Long(x)) == Long(-x)
  {
    var k := (x - Long(x)) / 0x1_0000_0000;
    assert x == Long(x) + k * 0x1_0000_0000;
    LongAdd(-x, k);
  }

  /** For %d the sign is printed before the padding, so blanks, or the characters '-', end up between the sign and
      the digits, where strtol stops. Exactly when all of the text is read as the 32-bit value of the number. */
  lemma SignedRoundTrip(n: int, width: int, padc: int)
    requires IsPad(padc)
    ensures var s, k := Signed(n, width, padc), |Digits(if n < 0 then -n else n, 10)|;
            Strtol(s, 10) == (Long(n), |s|) <==>
            if n < 0 then padc == ZERO || width <= k
            else padc != MINUS || width <= k || (width == k + 1 && n % 0x8000_0000 == 0)
  {
    hide Digits, Strtol, Long;
    if n >= 0 {
      RoundTripExact(n, 10, width, padc);
    } else {
      NegativeRoundTrip(-n, width, padc);
    }
  }

  /** The number behind a sign. */
  lemma NegativeRoundTrip(num: int, width: int, padc: int)
    requires num > 0 && IsPad(padc)
    ensures var s := [MINUS] + Number(num, 10, width, padc);
            if padc == ZERO || width <= |Digits(num, 10)|
            then Strtol(s, 10) == (Long(-(num as int)), |s|) else Strtol(s, 10) == (0, 1) && |s| > 1
  {
    hide DigitValue, Digits, Strtol, Long, ScanDigits;
    var ds := Digits(num, 10);
    var t := Number(num, 10, width, padc);
    if width <= |ds| {
      assert t == ds;
      NegatedDigits(num, 10);
    } else if padc == ZERO {
      NegatedZeros(num, width);
    } else if padc == MINUS {
      assert ([MINUS] + t)[1] == MINUS;
      TwoMinuses([MINUS] + t, 10);
    } else {
      assert ([MINUS] + t)[1] == SPACE;
      MinusBlank([MINUS] + t);
    }
  }

  lemma NegatedZeros(num: int, width: int)
    requires num > 0
    ensures var s := [MINUS] + Number(num, 10, width, ZERO); Strtol(s, 10) == (Long(-(num as int)), |s|)
  {
    hide Long, DigitValue, Digits, Value, Vals, ScanDigits, Prefix, SkipBlanks;
    var ds := Digits(num, 10);
    var s := [MINUS] + Number(num, 10, width, ZERO);
    DigitsDenote(num, 10);
    PaddedValue(width - |ds|, ds, 10);
    ZeroDigit();
    assert s[1..] == Repeat(ZERO, width - |ds|) + ds;
    MinusPrefix(s, 10);
    ScanAll(s, 1, 10);
    LongNeg(num);
  }

  lemma MinusBlank(s: Text)
    requires |s| >= 2 && s[0] == MINUS && s[1] == SPACE
    ensures Strtol(s, 10) == (0, 1)
  {
    assert Prefix(s, 0, 10) == (true, 1, 10);
  }
}
