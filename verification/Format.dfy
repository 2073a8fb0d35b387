/** vprintfmt of os/kernel/printfmt.c: what a format prints. A format is a text without NUL inside. */
module Format {
  import opened Words
  import opened NumberText

  const PERCENT := 37
  const HASH := 35
  const STAR := 42
  const DOT := 46
  const TILDE := 126
  const LETTER_C := 99
  const LETTER_D := 100
  const LETTER_E := 101
  const LETTER_L := 108
  const LETTER_O := 111
  const LETTER_P := 112
  const LETTER_S := 115
  const LETTER_U := 117

  function Codes(s: string): (t: Text)
    ensures |t| == |s|
  {
    seq(|s|, i requires 0 <= i < |s| => s[i] as int)
  }

  /** What a call gets besides the format: the words of the variable arguments, and the text that a pointer to
      characters stands for. Characters are signed. */
  datatype Env = Env(args: nat -> Word, str: Word -> Text)

  /** `int`, and `long` as well, from a word. */
  function IntOf(w: Word): (n: int)
    ensures -0x8000_0000 <= n < 0x8000_0000
  {
    if w < 0x8000_0000 then w else w - 0x1_0000_0000
  }

  /** getuint */
  function Unsigned(env: Env, a: nat, lflag: int): (n: int)
    ensures 0 <= n < 0x1_0000_0000_0000_0000
  {
    if lflag >= 2 then env.args(a) + env.args(a + 1) * 0x1_0000_0000 else env.args(a)
  }

  /** getint */
  function SignedArg(env: Env, a: nat, lflag: int): (n: int)
    ensures -0x8000_0000_0000_0000 <= n < 0x8000_0000_0000_0000
  {
    if lflag >= 2 then
      var n := Unsigned(env, a, lflag);
      if n < 0x8000_0000_0000_0000 then n else n - 0x1_0000_0000_0000_0000
    else IntOf(env.args(a))
  }

  /** How many argument words getint and getuint take. */
  function Slots(lflag: int): nat {
    if lflag >= 2 then 2 else 1
  }

  // ---------------------------------------------------------------- the flags of an escape

  datatype Spec = Spec(padc: int, width: int, precision: int, lflag: int, alt: bool)

  const PLAIN := Spec(SPACE, -1, -1, 0, false)

  /** An escape whose conversion character is at `at`; `a` is the next argument. */
  datatype Escape = Escape(sp: Spec, at: nat, a: nat)

  /** process_precision: the first number is the width. */
  function Process(sp: Spec): Spec {
    if sp.width < 0 then sp.(width := sp.precision, precision := -1) else sp
  }

  predicate IsDigit(c: int) {
    48 <= c <= 57
  }

  function ReadNumber(f: Text, i: nat, n: int): (r: (int, nat))
    requires i <= |f|
    ensures i <= r.1 <= |f| && !IsDigit(At(f, r.1))
    ensures IsDigit(At(f, i)) ==> i < r.1
    ensures forall k :: i <= k < r.1 ==> IsDigit(f[k])
    decreases |f| - i
  {
    if IsDigit(At(f, i)) then ReadNumber(f, i + 1, n * 10 + At(f, i) - 48) else (n, i)
  }

  predicate IsFlag(c: int) {
    c == MINUS || IsDigit(c) || c == STAR || c == DOT || c == HASH || c == LETTER_L
  }

  /** One flag, number, or star: what it changes, and where the next character is. */
  function ReadFlag(f: Text, i: nat, env: Env, a: nat, sp: Spec): (e: Escape)
    requires i <= |f| && IsFlag(At(f, i))
    ensures i < e.at <= |f| && e.a >= a
    ensures forall k :: i <= k < e.at ==> IsFlag(f[k])
  {
    var ch := At(f, i);
    if ch == MINUS then Escape(sp.(padc := MINUS), i + 1, a)
    else if ch == ZERO then Escape(sp.(padc := ZERO), i + 1, a)
    else if IsDigit(ch) then
      var (n, j) := ReadNumber(f, i, 0);
      Escape(Process(sp.(precision := n)), j, a)
    else if ch == STAR then Escape(Process(sp.(precision := IntOf(env.args(a)))), i + 1, a + 1)
    else if ch == DOT then Escape(if sp.width < 0 then sp.(width := 0) else sp, i + 1, a)
    else if ch == HASH then Escape(sp.(alt := true), i + 1, a)
    else Escape(sp.(lflag := sp.lflag + 1), i + 1, a)
  }

  function ReadEscape(f: Text, i: nat, env: Env, a: nat, sp: Spec): (e: Escape)
    requires i <= |f|
    ensures i <= e.at <= |f| && !IsFlag(At(f, e.at)) && e.a >= a
    ensures forall k :: i <= k < e.at ==> IsFlag(f[k])
    decreases |f| - i
  {
    if IsFlag(At(f, i)) then
      var e := ReadFlag(f, i, env, a, sp);
      ReadEscape(f, e.at, env, e.a, e.sp)
    else Escape(sp, i, a)
  }

  // ---------------------------------------------------------------- the conversions

  predicate Known(ch: int) {
    ch in {LETTER_C, LETTER_E, LETTER_S, LETTER_D, LETTER_U, LETTER_O, LETTER_P, LETTER_X, PERCENT}
  }

  /** How much of a text the precision lets through; strnlen(s, precision). */
  function Shown(s: Text, precision: int): (n: nat)
    ensures n <= |s|
  {
    if 0 <= precision < |s| then precision else |s|
  }

  /** With the flag '#' a character that cannot be printed becomes '?'. */
  function Clean(c: int, alt: bool): int {
    if alt && (c < SPACE || c > TILDE) then 63 else c
  }

  function CleanText(s: Text, alt: bool): (t: Text)
    ensures |t| == |s|
  {
    seq(|s|, i requires 0 <= i < |s| => Clean(s[i], alt))
  }

  /** What %s prints: aligned to the right, or to the left with the flag '-'. */
  function Field(s: Text, sp: Spec): Text {
    var n := Shown(s, sp.precision);
    var body := CleanText(s[..n], sp.alt);
    if sp.padc == MINUS then body + Repeat(SPACE, sp.width - n) else Repeat(sp.padc, sp.width - n) + body
  }

  /** error_string[err]; the address is computed in 32 bits. NULL is the empty text here. */
  function ErrorString(err: int): Text {
    var k := err * 4 % 0x1_0000_0000 / 4;
    if k == 1 then Codes("unspecified error")
    else if k == 2 then Codes("bad process")
    else if k == 3 then Codes("invalid parameter")
    else if k == 4 then Codes("out of memory")
    else if k == 5 then Codes("out of processes")
    else if k == 6 then Codes("segmentation fault")
    else []
  }

  const MAXERROR := 6

  /** What %e prints for the code `code`. The negative of the least `int` is itself. */
  function ErrorText(code: int): Text {
    var err := if code < 0 then Long(-code) else code;
    if err > MAXERROR || ErrorString(err) == [] then Codes("error ") + Signed(err, -1, SPACE) else ErrorString(err)
  }

  const NULL_TEXT := Codes("(null)")

  /** The text behind a pointer; %s prints "(null)" for the null pointer. */
  function PointedText(env: Env, p: Word): Text {
    if p == 0 then NULL_TEXT else env.str(p)
  }

  /** What the conversion `ch` prints, and the next argument. */
  function Convert(ch: int, sp: Spec, env: Env, a: nat): (r: (Text, nat))
    requires Known(ch)
    ensures r.1 >= a
  {
    if ch == LETTER_C then ([IntOf(env.args(a))], a + 1)
    else if ch == LETTER_E then (ErrorText(IntOf(env.args(a))), a + 1)
    else if ch == LETTER_S then (Field(PointedText(env, env.args(a)), sp), a + 1)
    else if ch == LETTER_D then (Signed(SignedArg(env, a, sp.lflag), sp.width, sp.padc), a + Slots(sp.lflag))
    else if ch == LETTER_U then (Number(Unsigned(env, a, sp.lflag), 10, sp.width, sp.padc), a + Slots(sp.lflag))
    else if ch == LETTER_O then (Number(Unsigned(env, a, sp.lflag), 8, sp.width, sp.padc), a + Slots(sp.lflag))
    else if ch == LETTER_P then ([ZERO, LETTER_X] + Number(env.args(a), 16, sp.width, sp.padc), a + 1)
    else if ch == LETTER_X then (Number(Unsigned(env, a, sp.lflag), 16, sp.width, sp.padc), a + Slots(sp.lflag))
    else ([PERCENT], a)
  }

  // ---------------------------------------------------------------- formats

  /** A piece of the output, where the format goes on, and the next argument. */
  datatype Piece = Piece(text: Text, next: nat, a: nat)

  /** A character that prints itself, or an escape. An escape that is not known prints its '%', and the format goes
      on directly behind it; arguments it has taken stay taken. */
  function Next(f: Text, i: nat, env: Env, a: nat): (p: Piece)
    requires i < |f|
    ensures i < p.next <= |f|
  {
    if f[i] != PERCENT then Piece([f[i]], i + 1, a)
    else
      var e := ReadEscape(f, i + 1, env, a, PLAIN);
      if Known(At(f, e.at)) then
        var (t, a') := Convert(At(f, e.at), e.sp, env, e.a);
        Piece(t, e.at + 1, a')
      else Piece([PERCENT], i + 1, e.a)
  }

  /** What is printed from position `i` of the format on, when the next argument is `a`. */
  function Printed(f: Text, i: nat, env: Env, a: nat): (t: Text)
    requires i <= |f|
    decreases |f| - i
  {
    if i == |f| then []
    else
      var p := Next(f, i, env, a);
      p.text + Printed(f, p.next, env, p.a)
  }

  /** Up to the next '%' a format prints itself. */
  lemma {:induction false} LiteralRun(f: Text, i: nat, j: nat, env: Env, a: nat)
    requires i <= j <= |f| && forall k :: i <= k < j ==> f[k] != PERCENT
    ensures Printed(f, i, env, a) == f[i..j] + Printed(f, j, env, a)
    decreases j - i
  {
    hide ReadEscape, Convert, Known;
    if i == j {
      assert f[i..j] == [];
    } else {
      LiteralRun(f, i + 1, j, env, a);
      assert f[i..j] == [f[i]] + f[i + 1..j];
    }
  }

  /** An escape that is not known is printed as it stands, including one that the end of the format cuts off. */
  lemma UnknownIsLiteral(f: Text, i: nat, env: Env, a: nat)
    requires i < |f| && f[i] == PERCENT
    ensures var e := ReadEscape(f, i + 1, env, a, PLAIN);
            !Known(At(f, e.at)) ==> Printed(f, i, env, a) == f[i..e.at] + Printed(f, e.at, env, e.a)
  {
    hide Convert;
    var e := ReadEscape(f, i + 1, env, a, PLAIN);
    if !Known(At(f, e.at)) {
      LiteralRun(f, i + 1, e.at, env, e.a);
      assert f[i..e.at] == [PERCENT] + f[i + 1..e.at];
    }
  }

  /** Every '%' of a text doubled. */
  function Doubled(t: Text): (f: Text) {
    if t == [] then []
    else (if t[0] == PERCENT then [PERCENT, PERCENT] else [t[0]]) + Doubled(t[1..])
  }

  /** What is printed depends on the rest of the format only. */
  lemma {:induction false} NumberShift(g: Text, f: Text, i: nat, n: int)
    requires i <= |f|
    ensures var r, r' := ReadNumber(f, i, n), ReadNumber(g + f, |g| + i, n); r' == (r.0, |g| + r.1)
    decreases |f| - i
  {
    assert At(g + f, |g| + i) == At(f, i);
    if IsDigit(At(f, i)) {
      NumberShift(g, f, i + 1, n * 10 + At(f, i) - 48);
    }
  }

  lemma FlagShift(g: Text, f: Text, i: nat, env: Env, a: nat, sp: Spec)
    requires i <= |f| && IsFlag(At(f, i))
    ensures At(g + f, |g| + i) == At(f, i)
    ensures var e := ReadFlag(f, i, env, a, sp); ReadFlag(g + f, |g| + i, env, a, sp) == e.(at := |g| + e.at)
  {
    hide ReadNumber, Process;
    NumberShift(g, f, i, 0);
  }

  lemma {:induction false} EscapeShift(g: Text, f: Text, i: nat, env: Env, a: nat, sp: Spec)
    requires i <= |f|
    ensures var e := ReadEscape(f, i, env, a, sp);
            ReadEscape(g + f, |g| + i, env, a, sp) == e.(at := |g| + e.at)
    decreases |f| - i
  {
    hide ReadFlag, IsFlag;
    assert At(g + f, |g| + i) == At(f, i);
    if IsFlag(At(f, i)) {
      FlagShift(g, f, i, env, a, sp);
      var e := ReadFlag(f, i, env, a, sp);
      EscapeShift(g, f, e.at, env, e.a, e.sp);
    }
  }

  lemma NextShift(g: Text, f: Text, i: nat, env: Env, a: nat)
    requires i < |f|
    ensures var p := Next(f, i, env, a); Next(g + f, |g| + i, env, a) == p.(next := |g| + p.next)
  {
    hide ReadEscape, Convert, Known;
    assert (g + f)[|g| + i] == f[i];
    if f[i] == PERCENT {
      EscapeShift(g, f, i + 1, env, a, PLAIN);
      assert At(g + f, |g| + ReadEscape(f, i + 1, env, a, PLAIN).at) == At(f, ReadEscape(f, i + 1, env, a, PLAIN).at);
    }
  }

  lemma {:induction false} PrintedShift(g: Text, f: Text, i: nat, env: Env, a: nat)
    requires i <= |f|
    ensures Printed(g + f, |g| + i, env, a) == Printed(f, i, env, a)
    decreases |f| - i
  {
    hide Next;
    if i < |f| {
      NextShift(g, f, i, env, a);
      PrintedShift(g, f, Next(f, i, env, a).next, env, Next(f, i, env, a).a);
    }
  }

  /** Doubling makes any text print as itself, and takes no argument. */
  lemma {:induction false} DoubledPrints(t: Text, env: Env, a: nat)
    ensures Printed(Doubled(t), 0, env, a) == t
  {
    if t != [] {
      DoubledPrints(t[1..], env, a);
      var rest := Doubled(t[1..]);
      if t[0] == PERCENT {
        var f := [PERCENT, PERCENT] + rest;
        PrintedShift([PERCENT, PERCENT], rest, 0, env, a);
        assert ReadEscape(f, 1, env, a, PLAIN) == Escape(PLAIN, 1, a);
        assert Printed(f, 0, env, a) == [PERCENT] + Printed(f, 2, env, a);
      } else {
        PrintedShift([t[0]], rest, 0, env, a);
      }
    }
  }

  // ---------------------------------------------------------------- fields

  /** A field is as wide as asked for, or as what is shown of the text if that is more; it holds exactly the shown
      characters at its right or left end, and pads the rest. */
  lemma FieldExact(s: Text, sp: Spec)
    ensures var n, t := Shown(s, sp.precision), Field(s, sp);
            && |t| == (if sp.width > n then sp.width else n)
            && (var at := if sp.padc == MINUS then 0 else |t| - n;
                && t[at..at + n] == CleanText(s[..n], sp.alt)
                && (forall k :: 0 <= k < |t| && !(at <= k < at + n) ==>
                      t[k] == if sp.padc == MINUS then SPACE else sp.padc))
  {
    hide CleanText;
    var n, t := Shown(s, sp.precision), Field(s, sp);
    var at := if sp.padc == MINUS then 0 else |t| - n;
    assert t[at..at + n] == CleanText(s[..n], sp.alt);
  }

  // ---------------------------------------------------------------- nested formats

  lemma CleanOff(s: Text)
    ensures CleanText(s[..|s|], false) == s
  {
  }

  /** The two formats with which %e calls printfmt again print what ErrorText says. */
  lemma StringFormat(env: Env, a: nat)
    requires env.args(a) != 0
    ensures Printed([PERCENT, LETTER_S], 0, env, a) == env.str(env.args(a))
  {
    hide Clean;
    var f := [PERCENT, LETTER_S];
    var s := env.str(env.args(a));
    assert ReadEscape(f, 1, env, a, PLAIN) == Escape(PLAIN, 1, a);
    assert Known(At(f, 1)) && Printed(f, 2, env, a + 1) == [];
    CleanOff(s);
    assert Repeat(SPACE, -1 - |s|) == [];
  }

  lemma DecimalFormat(env: Env, a: nat)
    ensures Printed([PERCENT, LETTER_D], 0, env, a) == Signed(IntOf(env.args(a)), -1, SPACE)
  {
    hide Signed;
    var f := [PERCENT, LETTER_D];
    assert ReadEscape(f, 1, env, a, PLAIN) == Escape(PLAIN, 1, a);
    assert Known(At(f, 1)) && Printed(f, 2, env, a + 1) == [];
  }

  lemma ErrorFormat(env: Env, a: nat)
    ensures Printed(Codes("error %d"), 0, env, a) == Codes("error ") + Signed(IntOf(env.args(a)), -1, SPACE)
  {
    hide Signed, Printed;
    var g, f := Codes("error "), Codes("error %d");
    assert f == g + [PERCENT, LETTER_D] && f[0..6] == g;
    LiteralRun(f, 0, 6, env, a);
    PrintedShift(g, [PERCENT, LETTER_D], 0, env, a);
    DecimalFormat(env, a);
  }

  /** strtol reads back what "%d" prints, for every `int`. */
  lemma DecimalReadsBack(env: Env, a: nat)
    ensures var t := Printed([PERCENT, LETTER_D], 0, env, a); Strtol(t, 10) == (IntOf(env.args(a)), |t|)
  {
    hide Printed, Signed, Strtol;
    DecimalFormat(env, a);
    SignedRoundTrip(IntOf(env.args(a)), -1, SPACE);
  }

  // ---------------------------------------------------------------- formats in parts

  /** No escape is cut off by the end of the format. */
  predicate Whole(f: Text, i: nat, env: Env, a: nat)
    requires i <= |f|
    decreases |f| - i
  {
    i == |f| ||
    (var p := Next(f, i, env, a);
     && (f[i] == PERCENT ==> ReadEscape(f, i + 1, env, a, PLAIN).at < |f|)
     && Whole(f, p.next, env, p.a))
  }

  /** The next argument after the format. */
  function ArgsAfter(f: Text, i: nat, env: Env, a: nat): nat
    requires i <= |f|
    decreases |f| - i
  {
    if i == |f| then a
    else
      var p := Next(f, i, env, a);
      ArgsAfter(f, p.next, env, p.a)
  }

  lemma {:induction false} NumberPrefix(f: Text, g: Text, i: nat, n: int)
    requires i <= |f| && ReadNumber(f, i, n).1 < |f|
    ensures ReadNumber(f + g, i, n) == ReadNumber(f, i, n)
    decreases |f| - i
  {
    assert i < |f| && At(f + g, i) == At(f, i);
    if IsDigit(At(f, i)) {
      NumberPrefix(f, g, i + 1, n * 10 + At(f, i) - 48);
    }
  }

  lemma FlagPrefix(f: Text, g: Text, i: nat, env: Env, a: nat, sp: Spec)
    requires i < |f| && IsFlag(At(f, i)) && ReadFlag(f, i, env, a, sp).at < |f|
    ensures ReadFlag(f + g, i, env, a, sp) == ReadFlag(f, i, env, a, sp)
  {
    hide ReadNumber, Process;
    assert At(f + g, i) == At(f, i);
    if IsDigit(At(f, i)) && At(f, i) != ZERO {
      NumberPrefix(f, g, i, 0);
    }
  }

  lemma {:induction false} EscapePrefix(f: Text, g: Text, i: nat, env: Env, a: nat, sp: Spec)
    requires i <= |f| && ReadEscape(f, i, env, a, sp).at < |f|
    ensures ReadEscape(f + g, i, env, a, sp) == ReadEscape(f, i, env, a, sp)
    decreases |f| - i
  {
    hide ReadFlag, IsFlag;
    assert i < |f| && At(f + g, i) == At(f, i);
    if IsFlag(At(f, i)) {
      var e := ReadFlag(f, i, env, a, sp);
      FlagPrefix(f, g, i, env, a, sp);
      EscapePrefix(f, g, e.at, env, e.a, e.sp);
    }
  }

  lemma NextPrefix(f: Text, g: Text, i: nat, env: Env, a: nat)
    requires i < |f| && (f[i] == PERCENT ==> ReadEscape(f, i + 1, env, a, PLAIN).at < |f|)
    ensures Next(f + g, i, env, a) == Next(f, i, env, a)
  {
    hide ReadEscape, Convert, Known;
    assert (f + g)[i] == f[i];
    if f[i] == PERCENT {
      EscapePrefix(f, g, i + 1, env, a, PLAIN);
      assert At(f + g, ReadEscape(f, i + 1, env, a, PLAIN).at) == At(f, ReadEscape(f, i + 1, env, a, PLAIN).at);
    }
  }

  lemma {:induction false} ConcatFrom(f: Text, g: Text, i: nat, env: Env, a: nat)
    requires i <= |f| && Whole(f, i, env, a)
    ensures Printed(f + g, i, env, a) == Printed(f, i, env, a) + Printed(g, 0, env, ArgsAfter(f, i, env, a))
    decreases |f| - i
  {
    hide Next, ReadEscape;
    if i == |f| {
      PrintedShift(f, g, 0, env, a);
    } else {
      var p := Next(f, i, env, a);
      NextPrefix(f, g, i, env, a);
      ConcatFrom(f, g, p.next, env, p.a);
    }
  }

  /** A format without an escape cut off at its end prints the same in one call as in two, the second of which goes
      on with the arguments the first has left. */
  lemma Concat(f: Text, g: Text, env: Env, a: nat)
    requires Whole(f, 0, env, a)
    ensures Printed(f + g, 0, env, a) == Printed(f, 0, env, a) + Printed(g, 0, env, ArgsAfter(f, 0, env, a))
  {
    ConcatFrom(f, g, 0, env, a);
  }
}
