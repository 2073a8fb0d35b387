/** What strtol of os/kernel/string.c reads: blanks, a sign, a prefix, and digits in small or capital letters. */
module StrtolLaws {
  import opened NumberText

  const CAPITAL_X := 88

  /** A digit up to 9 is written in one way, and a digit from 10 on as a letter of either kind. */
  lemma DigitValues(c: int, d: nat)
    requires d < 36
    ensures DigitValue(c) == d <==>
            if d < 10 then c == '0' as int + d else c == 'a' as int + d - 10 || c == 'A' as int + d - 10
  {
  }

  predicate Blanks(t: Text) {
    forall i :: 0 <= i < |t| ==> t[i] == SPACE || t[i] == TAB
  }

  /** The base that strtol uses behind the prefix `px`, when it is called with `base` and the rest of the text is
      `t`. */
  predicate PrefixFor(base: nat, px: Text, t: Text, b: nat) {
    || (px == [ZERO, LETTER_X] && (base == 0 || base == 16) && b == 16)
    || (px == [ZERO] && base == 0 && b == 8 && At(t, 0) != LETTER_X)
    || (px == [] && base == 0 && b == 10 && At(t, 0) != ZERO && At(t, 0) != PLUS && At(t, 0) != MINUS)
    || (px == [] && base == 16 && b == 16 && !(At(t, 0) == ZERO && At(t, 1) == LETTER_X))
    || (px == [] && base != 0 && base != 16 && b == base)
  }

  /** Every text that strtol is made for: it takes the blanks, the sign, the prefix and the digits, whatever follows
      them, and gives the 32-bit value of the digits with that sign. */
  lemma Reads(blanks: Text, sign: Text, px: Text, ds: Text, rest: Text, base: nat, b: nat)
    requires Blanks(blanks) && (sign == [] || sign == [PLUS] || sign == [MINUS]) && base <= 36
    requires PrefixFor(base, px, ds + rest, b) && Below(ds, b) && (px == [] ==> ds != [])
    requires rest == [] || DigitValue(rest[0]) >= b
    ensures var s := blanks + sign + px + ds + rest;
            var v := Value(Vals(ds), b);
            Strtol(s, base) == (Long(if sign == [MINUS] then -v else v), |s| - |rest|)
  {
    hide Long, DigitValue, Value, Vals, ScanDigits, Prefix, SkipBlanks;
    var s := blanks + sign + px + ds + rest;
    var i, j := |blanks|, |blanks| + |sign|;
    assert s == blanks + (sign + px + ds + rest);
    NoBlankThere(sign, px, ds, rest, b);
    SkipsBlanks(blanks, sign + px + ds + rest, 0);
    PrefixIs(blanks, sign, px, ds, rest, base, b);
    ReadsDigits(s, j + |px|, ds, b);
    LongNeg(Value(Vals(ds), b));
  }

  lemma {:induction false} SkipsBlanks(blanks: Text, t: Text, i: nat)
    requires Blanks(blanks) && i <= |blanks| && At(t, 0) != SPACE && At(t, 0) != TAB
    ensures SkipBlanks(blanks + t, i) == |blanks|
    decreases |blanks| - i
  {
    if i < |blanks| {
      assert At(blanks + t, i) == blanks[i];
      SkipsBlanks(blanks, t, i + 1);
    } else {
      assert At(blanks + t, i) == At(t, 0);
    }
  }

  lemma NoBlankThere(sign: Text, px: Text, ds: Text, rest: Text, b: nat)
    requires sign == [] || sign == [PLUS] || sign == [MINUS]
    requires px == [] || px == [ZERO] || px == [ZERO, LETTER_X]
    requires Below(ds, b) && b <= 36 && (px == [] ==> ds != [])
    ensures var t := sign + px + ds + rest; At(t, 0) != SPACE && At(t, 0) != TAB
  {
    var t := sign + px + ds + rest;
    assert t[0] == if sign != [] then sign[0] else if px != [] then px[0] else ds[0];
  }

  lemma PrefixIs(blanks: Text, sign: Text, px: Text, ds: Text, rest: Text, base: nat, b: nat)
    requires (sign == [] || sign == [PLUS] || sign == [MINUS]) && base <= 36
    requires PrefixFor(base, px, ds + rest, b) && Below(ds, b) && b <= 36 && (px == [] ==> ds != [])
    ensures var s := blanks + sign + px + ds + rest;
            Prefix(s, |blanks|, base) == (sign == [MINUS], |blanks| + |sign| + |px|, b)
  {
    var s, j := blanks + sign + px + ds + rest, |blanks| + |sign|;
    var t := ds + rest;
    assert At(s, |blanks|) == if sign != [] then sign[0] else At(s, j);
    assert px == [] ==> At(s, j) == ds[0] == At(t, 0) && At(s, j + 1) == At(t, 1);
    assert px != [] ==> At(s, j) == px[0] && At(s, j + 1) == if |px| == 2 then px[1] else At(t, 0);
    assert px == [] ==> DigitValue(ds[0]) < 36;
  }

  /** A run of digits that ends where the text ends or a character is no digit of the base. */
  lemma ReadsDigits(s: Text, i: nat, ds: Text, base: nat)
    requires base <= 36 && i + |ds| <= |s| && s[i..i + |ds|] == ds && Below(ds, base)
    requires i + |ds| == |s| || DigitValue(s[i + |ds|]) >= base
    ensures ScanDigits(s, i, base, 0) == (Long(Value(Vals(ds), base)), i + |ds|)
  {
    assert ds[..|ds|] == ds;
    ScanFirst(s, i, ds, base, |ds|);
    assert DigitValue(At(s, i + |ds|)) >= base;
    hide DigitValue, Long, Value, Vals;
  }

  /** Capital letters are read like small ones. */
  function Capital(c: int): int {
    if 'a' as int <= c <= 'z' as int then c - 32 else c
  }

  function Capitals(t: Text): (r: Text)
    ensures |r| == |t|
  {
    seq(|t|, i requires 0 <= i < |t| => Capital(t[i]))
  }

  lemma CapitalsReadBack(num: nat)
    ensures var s := Capitals(Digits(num, 16)); Strtol(s, 16) == (Long(num), |s|)
  {
    hide Digits, Value, Strtol, Long;
    var ds := Digits(num, 16);
    var s := Capitals(ds);
    DigitsDenote(num, 16);
    SameValues(ds);
    NoX(s);
    assert [] + [] + [] + s + [] == s;
    assert s + [] == s;
    Reads([], [], [], s, [], 16, 16);
  }

  lemma SameValues(t: Text)
    ensures Vals(Capitals(t)) == Vals(t) && forall b: nat :: Below(t, b) ==> Below(Capitals(t), b)
  {
    forall i | 0 <= i < |t| ensures DigitValue(Capital(t[i])) == DigitValue(t[i]) {
    }
    hide DigitValue, Capital;
  }

  lemma NoX(t: Text)
    requires Below(t, 16)
    ensures At(t, 1) != LETTER_X
  {
    assert DigitValue(LETTER_X) == 33;
  }

  /** The comment of strtol allows the prefix 0X as well; the code reads the 0 and stops. */
  lemma CapitalPrefix(ds: Text)
    ensures Strtol([ZERO, CAPITAL_X] + ds, 16) == (0, 1) && Strtol([ZERO, CAPITAL_X] + ds, 0) == (0, 1)
  {
    var s := [ZERO, CAPITAL_X] + ds;
    assert DigitValue(CAPITAL_X) == 33;
    assert SkipBlanks(s, 0) == 0;
    assert ScanDigits(s, 1, 16, 0) == (0, 1) && ScanDigits(s, 1, 8, 0) == (0, 1);
  }
}
