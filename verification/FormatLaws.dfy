/** Laws of the formatter that tie its conversions and flags to strtol and to each other. */
module FormatLaws {
  import opened NumberText
  import opened Format

  // ---------------------------------------------------------------- conversions read back

  function BaseOf(ch: int): nat {
    if ch == LETTER_O then 8 else if ch == LETTER_U then 10 else 16
  }

  lemma SimpleEscape(ch: int, env: Env, a: nat)
    requires Known(ch)
    ensures Printed([PERCENT, ch], 0, env, a) == Convert(ch, PLAIN, env, a).0
  {
    hide Convert;
    var f := [PERCENT, ch];
    KnownIsNoFlag(ch);
    assert ReadEscape(f, 1, env, a, PLAIN) == Escape(PLAIN, 1, a);
    assert Next(f, 0, env, a) == Piece(Convert(ch, PLAIN, env, a).0, 2, Convert(ch, PLAIN, env, a).1);
    assert Printed(f, 2, env, Convert(ch, PLAIN, env, a).1) == [];
  }

  lemma KnownIsNoFlag(ch: int)
    requires Known(ch)
    ensures !IsFlag(ch) && ch != 0
  {
  }

  /** strtol in the base of the conversion reads back what %o, %u and %x print, as a 32-bit long. */
  lemma UnsignedReadsBack(ch: int, env: Env, a: nat)
    requires ch == LETTER_O || ch == LETTER_U || ch == LETTER_X
    ensures var t := Printed([PERCENT, ch], 0, env, a); Strtol(t, BaseOf(ch)) == (Long(env.args(a)), |t|)
  {
    hide Printed, Number, Strtol, Long;
    SimpleEscape(ch, env, a);
    RoundTrip(env.args(a), BaseOf(ch), -1, SPACE);
  }

  /** strtol accepts the 0x that %p prints, with base 16 and with base 0. */
  lemma PointerReadsBack(env: Env, a: nat, base: nat)
    requires base == 0 || base == 16
    ensures var t := Printed([PERCENT, LETTER_P], 0, env, a); Strtol(t, base) == (Long(env.args(a)), |t|)
  {
    hide Printed, Digits, Long, IsDigits, Value, Vals, ScanDigits;
    SimpleEscape(LETTER_P, env, a);
    var ds := Digits(env.args(a), 16);
    assert Repeat(SPACE, -1 - |ds|) == [];
    var t := [ZERO, LETTER_X] + ds;
    assert Number(env.args(a), 16, -1, SPACE) == ds;
    assert t[2..] == ds;
    DigitsDenote(env.args(a), 16);
    assert SkipBlanks(t, 0) == 0 && Prefix(t, 0, base) == (false, 2, 16);
    ScanAll(t, 2, 16);
  }

  // ---------------------------------------------------------------- the width

  /** Reading `k` digits of a number in the format. */
  lemma {:induction false} ReadDigits(f: Text, i: nat, ds: Text, k: nat)
    requires k <= |ds| && i + |ds| <= |f| && f[i..i + |ds|] == ds && IsDigits(ds, 10)
    ensures ReadNumber(f, i, 0) == ReadNumber(f, i + k, Value(Vals(ds[..k]), 10))
  {
    hide Vals, Value;
    if k == 0 {
      NoDigits(ds);
    } else {
      ReadDigits(f, i, ds, k - 1);
      assert f[i + k - 1] == f[i..i + |ds|][k - 1] == ds[k - 1];
      assert ds[..k] == ds[..k - 1] + [ds[k - 1]];
      ValueAppend(ds[..k - 1], ds[k - 1], 10);
      assert DigitValue(ds[k - 1]) < 10 && IsDigit(ds[k - 1]) && At(f, i + k - 1) == ds[k - 1];
    }
  }

  lemma NoDigits(ds: Text)
    ensures Value(Vals(ds[..0]), 10) == 0
  {
    assert Vals(ds[..0]) == [];
  }

  /** A width in the format is read as the number it denotes. */
  lemma WidthRead(g: Text, w: nat, rest: Text, env: Env, a: nat, sp: Spec)
    requires w > 0 && rest != [] && !IsDigit(rest[0])
    ensures var ds := Digits(w, 10);
            var f := g + ds + rest;
            ReadEscape(f, |g|, env, a, sp) == ReadEscape(f, |g| + |ds|, env, a, Process(sp.(precision := w)))
  {
    hide ReadEscape, Digits, Process;
    var ds := Digits(w, 10);
    var f := g + ds + rest;
    DigitsDenote(w, 10);
    NoLeadingZero(w, 10);
    assert f[|g|..|g| + |ds|] == ds && ds[..|ds|] == ds;
    ReadDigits(f, |g|, ds, |ds|);
    assert At(f, |g| + |ds|) == rest[0];
    assert ReadNumber(f, |g|, 0) == (w, |g| + |ds|);
    assert At(f, |g|) == ds[0];
    assert DigitValue(ds[0]) < 10;
    FirstFlag(f, |g|, env, a, sp);
  }

  lemma FirstFlag(f: Text, i: nat, env: Env, a: nat, sp: Spec)
    requires i <= |f|
    ensures IsDigit(At(f, i)) && At(f, i) != ZERO ==>
              ReadEscape(f, i, env, a, sp) ==
              ReadEscape(f, ReadNumber(f, i, 0).1, env, a, Process(sp.(precision := ReadNumber(f, i, 0).0)))
    ensures At(f, i) == ZERO ==> ReadEscape(f, i, env, a, sp) == ReadEscape(f, i + 1, env, a, sp.(padc := ZERO))
    ensures At(f, i) == MINUS ==> ReadEscape(f, i, env, a, sp) == ReadEscape(f, i + 1, env, a, sp.(padc := MINUS))
    ensures At(f, i) == STAR ==>
              ReadEscape(f, i, env, a, sp) ==
              ReadEscape(f, i + 1, env, a + 1, Process(sp.(precision := IntOf(env.args(a)))))
    ensures At(f, i) == DOT ==>
              ReadEscape(f, i, env, a, sp) ==
              ReadEscape(f, i + 1, env, a, if sp.width < 0 then sp.(width := 0) else sp)
    ensures At(f, i) == HASH ==> ReadEscape(f, i, env, a, sp) == ReadEscape(f, i + 1, env, a, sp.(alt := true))
    ensures At(f, i) == LETTER_L ==>
              ReadEscape(f, i, env, a, sp) == ReadEscape(f, i + 1, env, a, sp.(lflag := sp.lflag + 1))
    ensures !IsFlag(At(f, i)) ==> ReadEscape(f, i, env, a, sp) == Escape(sp, i, a)
  {
    hide ReadNumber, Process;
  }

  /** The flag for a padding character; blanks need none. */
  function PadFlag(padc: int): Text {
    if padc == SPACE then [] else [padc]
  }

  /** What one escape with a flag and a width prints. */
  lemma WidthPrints(w: nat, ch: int, padc: int, env: Env, a: nat)
    requires w > 0 && Known(ch) && IsPad(padc)
    ensures Printed([PERCENT] + PadFlag(padc) + Digits(w, 10) + [ch], 0, env, a) ==
            Convert(ch, PLAIN.(width := w, padc := padc), env, a).0
  {
    hide Digits, Convert, ReadEscape;
    var g := [PERCENT] + PadFlag(padc);
    var sp := PLAIN.(padc := padc);
    var f := g + Digits(w, 10) + [ch];
    KnownIsNoFlag(ch);
    WidthRead(g, w, [ch], env, a, sp);
    if padc != SPACE {
      FirstFlag(f, 1, env, a, PLAIN);
    }
    FirstFlag(f, |f| - 1, env, a, Process(sp.(precision := w)));
    LastPiece(f, env, a, sp.(width := w), ch);
  }

  lemma LastPiece(f: Text, env: Env, a: nat, sp: Spec, ch: int)
    requires |f| >= 2 && f[0] == PERCENT && f[|f| - 1] == ch && Known(ch)
    requires ReadEscape(f, 1, env, a, PLAIN) == Escape(sp, |f| - 1, a)
    ensures Printed(f, 0, env, a) == Convert(ch, sp, env, a).0
  {
    hide Convert, ReadEscape;
    var r := Convert(ch, sp, env, a);
    assert Next(f, 0, env, a) == Piece(r.0, |f|, r.1);
    assert Printed(f, |f|, env, r.1) == [];
  }

  /** A '*' in the format is the width that the argument gives. */
  lemma StarIsWidth(w: nat, ch: int, env: Env, a: nat)
    requires 0 < w < 0x8000_0000 && Known(ch) && env.args(a) == w
    ensures Printed([PERCENT, STAR, ch], 0, env, a) == Printed([PERCENT] + Digits(w, 10) + [ch], 0, env, a + 1)
  {
    hide Digits, Convert, ReadEscape, Printed;
    var f := [PERCENT, STAR, ch];
    WidthPrints(w, ch, SPACE, env, a + 1);
    assert [PERCENT] + [] + Digits(w, 10) + [ch] == [PERCENT] + Digits(w, 10) + [ch];
    KnownIsNoFlag(ch);
    FirstFlag(f, 1, env, a, PLAIN);
    FirstFlag(f, 2, env, a + 1, PLAIN.(width := w));
    StarPiece(f, env, a, w, ch);
  }

  lemma StarPiece(f: Text, env: Env, a: nat, w: nat, ch: int)
    requires f == [PERCENT, STAR, ch] && Known(ch)
    requires ReadEscape(f, 1, env, a, PLAIN) == Escape(PLAIN.(width := w), 2, a + 1)
    ensures Printed(f, 0, env, a) == Convert(ch, PLAIN.(width := w), env, a + 1).0
  {
    hide Convert, ReadEscape;
    var r := Convert(ch, PLAIN.(width := w), env, a + 1);
    assert Next(f, 0, env, a) == Piece(r.0, 3, r.1);
    assert Printed(f, 3, env, r.1) == [];
  }

  /** A number printed in a field of `w` is exactly that wide, or as wide as its digits. strtol reads all of it if it
      is padded by blanks or zeros; the flag '-' makes it negative or ends the reading. */
  lemma WidthReadsBack(w: nat, ch: int, padc: int, env: Env, a: nat)
    requires w > 0 && (ch == LETTER_O || ch == LETTER_U || ch == LETTER_X) && IsPad(padc)
    ensures var t, num: int := Printed([PERCENT] + PadFlag(padc) + Digits(w, 10) + [ch], 0, env, a), env.args(a);
            var n := |Digits(num, BaseOf(ch))|;
            && |t| == (if n > w then n else w)
            && Strtol(t, BaseOf(ch)) ==
               if padc != MINUS || w <= n then (Long(num), |t|)
               else if w == n + 1 then (Long(-num), |t|) else (0, 1)
  {
    hide Printed, Strtol, Long, Digits;
    WidthPrints(w, ch, padc, env, a);
    RoundTrip(env.args(a), BaseOf(ch), w, padc);
  }
}
