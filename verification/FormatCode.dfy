/** The loops of vprintfmt and vsnprintf, proved against Format. */
module FormatCode {
  import opened Words
  import opened NumberText
  import opened NumberCode
  import opened Format

  predicate CString(t: Text) {
    forall k :: 0 <= k < |t| ==> t[k] != 0
  }

  ghost predicate Readable(env: Env) {
    forall p: Word :: CString(env.str(p))
  }

  lemma NumberStep(f: Text, i: nat, n: int)
    requires i <= |f|
    ensures IsDigit(At(f, i)) ==> ReadNumber(f, i, n) == ReadNumber(f, i + 1, n * 10 + At(f, i) - 48)
    ensures !IsDigit(At(f, i)) ==> ReadNumber(f, i, n) == (n, i)
  {
  }

  /** The loop over a number; `i` is at its first digit. */
  method ParseNumber(f: Text, start: nat) returns (precision: int, i: nat)
    requires start < |f| && IsDigit(At(f, start))
    ensures (precision, i) == ReadNumber(f, start, 0)
  {
    hide ReadNumber;
    var ch := At(f, start);
    i := start + 1;
    precision := 0;
    NumberStep(f, start, 0);
    while true
      invariant start < i <= |f| && ch == At(f, i - 1) && IsDigit(ch)
      invariant ReadNumber(f, start, 0) == ReadNumber(f, i, precision * 10 + ch - 48)
      decreases |f| - i
    {
      precision := precision * 10 + ch - 48;
      NumberStep(f, i, precision);
      ch := At(f, i);
      if ch < 48 || ch > 57 {
        break;
      }
      i := i + 1;
    }
  }

  lemma FlagStep(f: Text, i: nat, env: Env, a: nat, sp: Spec)
    requires i <= |f|
    ensures !IsFlag(At(f, i)) ==> ReadEscape(f, i, env, a, sp) == Escape(sp, i, a)
    ensures IsFlag(At(f, i)) ==>
              var e := ReadFlag(f, i, env, a, sp); ReadEscape(f, i, env, a, sp) == ReadEscape(f, e.at, env, e.a, e.sp)
  {
    hide ReadFlag, IsFlag;
  }

  /** The switch over the flags of an escape. */
  method ParseEscape(f: Text, start: nat, env: Env, arg: nat) returns (sp: Spec, i: nat, a: nat)
    requires start <= |f|
    ensures Escape(sp, i, a) == ReadEscape(f, start, env, arg, PLAIN)
  {
    hide ReadNumber, IntOf, ReadEscape;
    var padc, width, precision, lflag, alt := SPACE, -1, -1, 0, false;
    i, a := start, arg;
    while true
      invariant i <= |f|
      invariant ReadEscape(f, i, env, a, Spec(padc, width, precision, lflag, alt)) ==
                ReadEscape(f, start, env, arg, PLAIN)
      decreases |f| - i
    {
      var ch := At(f, i);
      FlagStep(f, i, env, a, Spec(padc, width, precision, lflag, alt));
      if ch == MINUS {
        padc, i := MINUS, i + 1;
      } else if ch == ZERO {
        padc, i := ZERO, i + 1;
      } else if 49 <= ch <= 57 {
        precision, i := ParseNumber(f, i);
        if width < 0 {
          width, precision := precision, -1;
        }
      } else if ch == STAR {
        precision, i, a := IntOf(env.args(a)), i + 1, a + 1;
        if width < 0 {
          width, precision := precision, -1;
        }
      } else if ch == DOT {
        if width < 0 {
          width := 0;
        }
        i := i + 1;
      } else if ch == HASH {
        alt, i := true, i + 1;
      } else if ch == LETTER_L {
        lflag, i := lflag + 1, i + 1;
      } else {
        break;
      }
    }
    sp := Spec(padc, width, precision, lflag, alt);
  }

  /** strnlen; a negative precision is a very large `size_t`. */
  method StrNLen(s: Text, precision: int) returns (cnt: nat)
    requires CString(s)
    ensures cnt == Shown(s, precision)
  {
    cnt := 0;
    while (precision < 0 || cnt < precision) && At(s, cnt) != 0
      invariant cnt <= |s| && (precision >= 0 ==> cnt <= precision)
      decreases |s| - cnt
    {
      cnt := cnt + 1;
    }
  }

  /** A loop that puts the same character until the width is used up. */
  method Pad(b: SprintBuf, c: int, width: int)
    requires b.Valid()
    modifies b, b.mem
    ensures b.Valid() && b.stream == old(b.stream) + Repeat(c, width)
  {
    var w := width;
    while w > 0
      invariant b.Valid() && (width > 0 ==> 0 <= w)
      invariant b.stream + Repeat(c, w) == old(b.stream) + Repeat(c, width)
      decreases w
    {
      b.Putch(c);
      w := w - 1;
    }
  }

  /** The loop of %s over the text; the width goes down with every character. */
  method PrintBody(b: SprintBuf, s: Text, sp: Spec, start: int) returns (width: int)
    requires b.Valid() && CString(s)
    modifies b, b.mem
    ensures var n := Shown(s, sp.precision);
            b.Valid() && b.stream == old(b.stream) + CleanText(s[..n], sp.alt) && width == start - n
  {
    hide Clean;
    ghost var n := Shown(s, sp.precision);
    ghost var body := CleanText(s[..n], sp.alt);
    var precision, k: nat := sp.precision, 0;
    width := start;
    assert body[..0] == [];
    while At(s, k) != 0 && (precision < 0 || precision - 1 >= 0)
      invariant b.Valid() && k <= n && width == start - k
      invariant precision == if sp.precision < 0 then sp.precision else sp.precision - k
      invariant b.stream == old(b.stream) + body[..k]
      decreases |s| - k
    {
      if precision >= 0 {
        precision := precision - 1;
      }
      assert body[..k + 1] == body[..k] + [Clean(s[k], sp.alt)];
      CleanIs(s[k], sp.alt);
      if sp.alt && (s[k] < SPACE || s[k] > TILDE) {
        b.Putch(63);
      } else {
        b.Putch(s[k]);
      }
      k, width := k + 1, width - 1;
    }
    assert k == n && body[..n] == body;
  }

  /** The conversion %s. */
  method PrintString(b: SprintBuf, s: Text, sp: Spec)
    requires b.Valid() && CString(s)
    modifies b, b.mem
    ensures b.Valid() && b.stream == old(b.stream) + Field(s, sp)
  {
    hide CleanText, Shown, CString;
    var width := sp.width;
    if width > 0 && sp.padc != MINUS {
      var len := StrNLen(s, sp.precision);
      Pad(b, sp.padc, width - len);
      width := if width - len > 0 then 0 else width - len;
    }
    width := PrintBody(b, s, sp, width);
    Pad(b, SPACE, width);
  }

  lemma CleanIs(c: int, alt: bool)
    ensures Clean(c, alt) == if alt && (c < SPACE || c > TILDE) then 63 else c
  {
  }

  /** The conversion %d, which the nested format of %e uses as well. */
  method PrintDecimal(b: SprintBuf, n: int, width: int, padc: int)
    requires b.Valid() && -0x8000_0000_0000_0000 <= n < 0x8000_0000_0000_0000
    modifies b, b.mem
    ensures b.Valid() && b.stream == old(b.stream) + Signed(n, width, padc)
  {
    hide Number;
    var num := n;
    if n < 0 {
      b.Putch(MINUS);
      num := -n;
    }
    b.PrintNum(num, 10, width, padc);
  }

  /** A constant text, as printfmt puts it. */
  method PutText(b: SprintBuf, t: Text)
    requires b.Valid()
    modifies b, b.mem
    ensures b.Valid() && b.stream == old(b.stream) + t
  {
    var k := 0;
    while k < |t|
      invariant 0 <= k <= |t| && b.Valid() && b.stream == old(b.stream) + t[..k]
    {
      b.Putch(t[k]);
      k := k + 1;
    }
    assert t[..|t|] == t;
  }

  /** The conversion %e. */
  method PrintError(b: SprintBuf, code: int)
    requires b.Valid() && -0x8000_0000 <= code < 0x8000_0000
    modifies b, b.mem
    ensures b.Valid() && b.stream == old(b.stream) + ErrorText(code)
  {
    hide Codes, Signed, ErrorString;
    var err := if code < 0 then Long(-code) else code;
    if err > MAXERROR || ErrorString(err) == [] {
      PutText(b, Codes("error "));
      PrintDecimal(b, err, -1, SPACE);
    } else {
      PutText(b, ErrorString(err));
    }
  }

  /** One conversion. */
  method PrintConversion(b: SprintBuf, ch: int, sp: Spec, env: Env, arg: nat) returns (a: nat)
    requires b.Valid() && Known(ch) && Readable(env)
    modifies b, b.mem
    ensures b.Valid()
    ensures b.stream == old(b.stream) + Convert(ch, sp, env, arg).0 && a == Convert(ch, sp, env, arg).1
  {
    hide Number, Signed, ErrorText, Field, CString, Unsigned, SignedArg;
    a := arg;
    if ch == LETTER_C {
      b.Putch(IntOf(env.args(a)));
      a := a + 1;
    } else if ch == LETTER_E {
      PrintError(b, IntOf(env.args(a)));
      a := a + 1;
    } else if ch == LETTER_S {
      NullIsCString();
      PrintString(b, PointedText(env, env.args(a)), sp);
      a := a + 1;
    } else if ch == LETTER_D {
      PrintDecimal(b, SignedArg(env, a, sp.lflag), sp.width, sp.padc);
      a := a + Slots(sp.lflag);
    } else if ch == PERCENT {
      b.Putch(PERCENT);
    } else {
      var num, base := Unsigned(env, a, if ch == LETTER_P then 0 else sp.lflag), 16;
      if ch == LETTER_P {
        b.Putch(ZERO);
        b.Putch(LETTER_X);
        WordArg(env, a);
        assert b.stream == old(b.stream) + [ZERO, LETTER_X];
        assert b.stream + Number(num, 16, sp.width, sp.padc)
            == old(b.stream) + ([ZERO, LETTER_X] + Number(num, 16, sp.width, sp.padc));
        a := a + 1;
      } else {
        base := if ch == LETTER_U then 10 else if ch == LETTER_O then 8 else 16;
        a := a + Slots(sp.lflag);
      }
      b.PrintNum(num, base, sp.width, sp.padc);
    }
  }

  lemma NullIsCString()
    ensures CString(NULL_TEXT)
  {
  }

  lemma WordArg(env: Env, a: nat)
    ensures Unsigned(env, a, 0) == env.args(a)
  {
  }

  /** vprintfmt: it comes to an end on every format and puts what Printed says. */
  method Vprintfmt(b: SprintBuf, f: Text, env: Env)
    requires b.Valid() && CString(f) && Readable(env)
    modifies b, b.mem
    ensures b.Valid() && b.stream == old(b.stream) + Printed(f, 0, env, 0)
  {
    hide Convert, Known, CString, Readable;
    var i: nat, a: nat := 0, 0;
    while i < |f|
      invariant i <= |f| && b.Valid()
      invariant b.stream + Printed(f, i, env, a) == old(b.stream) + Printed(f, 0, env, 0)
    {
      ghost var was, p := b.stream, Next(f, i, env, a);
      ghost var rest := Printed(f, p.next, env, p.a);
      assert was + (p.text + rest) == (was + p.text) + rest;
      if f[i] != PERCENT {
        b.Putch(f[i]);
        i := i + 1;
      } else {
        ghost var own := i;
        var sp, at, a' := ParseEscape(f, i + 1, env, a);
        if Known(At(f, at)) {
          a := PrintConversion(b, At(f, at), sp, env, a');
          i := at + 1;
        } else {
          b.Putch(PERCENT);
          i, a := at, a';
          while f[i - 1] != PERCENT
            invariant own < i <= at
            decreases i
          {
            i := i - 1;
          }
          assert i == own + 1;
        }
      }
      assert i == p.next && a == p.a && b.stream == was + p.text;
    }
  }

  /** The end of vsnprintf: the NUL, and the count. */
  method Terminate(b: SprintBuf) returns (r: int)
    requires b.Valid()
    modifies b.mem
    ensures var n := if |b.stream| < b.ebuf - b.start then |b.stream| else b.ebuf - b.start;
            && r == |b.stream|
            && (forall k :: 0 <= k < n ==> b.mem[b.start + k] == Byte(b.stream[k]))
            && b.mem[b.start + n] == 0
            && (forall k :: 0 <= k < b.mem.Length && !(b.start <= k <= b.start + n) ==> b.mem[k] == b.before[k])
  {
    hide Byte;
    b.mem[b.buf] := 0;
    r := b.cnt;
  }

  const E_INVAL := 3

  /** vsnprintf on memory `mem`, where the buffer has the address `str`; 0 is the null pointer. */
  method Vsnprintf(mem: array<int>, str: nat, size: nat, f: Text, env: Env) returns (r: int)
    requires str != 0 ==> str + size <= mem.Length
    requires CString(f) && Readable(env)
    modifies mem
    ensures str == 0 || size == 0 ==> r == -E_INVAL && mem[..] == old(mem[..])
    ensures str != 0 && size > 0 ==>
              var t := Printed(f, 0, env, 0);
              var n := if |t| < size - 1 then |t| else size - 1;
              && r == |t|
              && (forall k :: 0 <= k < n ==> mem[str + k] == Byte(t[k]))
              && mem[str + n] == 0
              && (forall k :: 0 <= k < mem.Length && !(str <= k <= str + n) ==> mem[k] == old(mem[k]))
  {
    hide Printed, CString, Readable, Byte;
    if str == 0 || size == 0 {
      return -E_INVAL;
    }
    var b := new SprintBuf(mem, str, str + size - 1);
    Vprintfmt(b, f, env);
    assert b.stream == Printed(f, 0, env, 0);
    r := Terminate(b);
  }
}
