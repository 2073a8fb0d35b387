/** What an escape with its flags, width, precision and length means, how many arguments it takes, and that vprintfmt
    reads it so. */
module FormatDirectives {
  import opened Words
  import opened NumberText
  import opened Format
  import opened FormatLaws

  /** A width or a precision: none, a number, or a star. A number starts with another digit than 0, which is a flag. */
  datatype Dim = Absent | Written(n: nat) | Star

  /** An escape: the flag '#', the padding character, width, precision, how many 'l', and the conversion. */
  datatype Directive = Directive(alt: bool, padc: int, width: Dim, precision: Dim, longs: nat, ch: int)

  predicate DimOk(d: Dim) {
    d.Written? ==> d.n > 0
  }

  predicate WellFormed(d: Directive) {
    IsPad(d.padc) && DimOk(d.width) && DimOk(d.precision) && Known(d.ch)
  }

  function DimText(d: Dim): Text
    requires DimOk(d)
  {
    match d
    case Absent => []
    case Written(n) => Digits(n, 10)
    case Star => [STAR]
  }

  function AltText(alt: bool): Text {
    if alt then [HASH] else []
  }

  function PrecisionText(d: Dim): Text
    requires DimOk(d)
  {
    if d.Absent? then [] else [DOT] + DimText(d)
  }

  /** What stands behind the '%'. */
  function Body(d: Directive): Text
    requires WellFormed(d)
  {
    AltText(d.alt) + (PadFlag(d.padc) + (DimText(d.width) + (PrecisionText(d.precision)
    + (Repeat(LETTER_L, d.longs) + [d.ch]))))
  }

  function Render(d: Directive): Text
    requires WellFormed(d)
  {
    [PERCENT] + Body(d)
  }

  // ---------------------------------------------------------------- what it means

  /** The value of a width or precision; a star takes the argument. */
  function DimValue(d: Dim, env: Env, a: nat): int {
    match d
    case Absent => -1
    case Written(n) => n
    case Star => IntOf(env.args(a))
  }

  function Stars(d: Dim): nat {
    if d.Star? then 1 else 0
  }

  function SpecOf(d: Directive, env: Env, a: nat): Spec {
    var w := DimValue(d.width, env, a);
    var p := DimValue(d.precision, env, a + Stars(d.width));
    if d.precision.Absent? then Spec(d.padc, w, -1, d.longs, d.alt)
    else Spec(d.padc, if w < 0 then 0 else w, p, d.longs, d.alt)
  }

  /** The argument words that the conversion takes, besides those of the stars. */
  function Taken(ch: int, longs: int): nat {
    if ch == PERCENT then 0
    else if ch in {LETTER_D, LETTER_U, LETTER_O, LETTER_X} && longs >= 2 then 2
    else 1
  }

  // ---------------------------------------------------------------- how many arguments an escape takes

  /** How often `c` stands in f[i..j]. */
  function CountIn(f: Text, i: nat, j: nat, c: int): nat
    requires i <= j <= |f|
    decreases j - i
  {
    if i == j then 0 else (if f[i] == c then 1 else 0) + CountIn(f, i + 1, j, c)
  }

  lemma {:induction false} CountSplit(f: Text, i: nat, k: nat, j: nat, c: int)
    requires i <= k <= j <= |f|
    ensures CountIn(f, i, j, c) == CountIn(f, i, k, c) + CountIn(f, k, j, c)
    decreases k - i
  {
    if i < k {
      CountSplit(f, i + 1, k, j, c);
    }
  }

  lemma {:induction false} NotInDigits(f: Text, i: nat, j: nat, c: int)
    requires i <= j <= |f| && (forall k :: i <= k < j ==> IsDigit(f[k])) && !IsDigit(c)
    ensures CountIn(f, i, j, c) == 0
    decreases j - i
  {
    if i < j {
      NotInDigits(f, i + 1, j, c);
    }
  }

  lemma CountOne(f: Text, i: nat, c: int)
    requires i < |f|
    ensures CountIn(f, i, i + 1, c) == if f[i] == c then 1 else 0
  {
    assert CountIn(f, i + 1, i + 1, c) == 0;
  }

  lemma FlagCounts(f: Text, i: nat, env: Env, a: nat, sp: Spec)
    requires i <= |f| && IsFlag(At(f, i))
    ensures var e := ReadFlag(f, i, env, a, sp);
            && i < |f| && i < e.at <= |f|
            && e.a == a + CountIn(f, i, e.at, STAR) && e.sp.lflag == sp.lflag + CountIn(f, i, e.at, LETTER_L)
  {
    hide ReadNumber;
    var e := ReadFlag(f, i, env, a, sp);
    assert i < |f|;
    if IsDigit(f[i]) && f[i] != ZERO {
      NotInDigits(f, i, e.at, STAR);
      NotInDigits(f, i, e.at, LETTER_L);
    } else {
      assert e.at == i + 1;
      CountOne(f, i, STAR);
      CountOne(f, i, LETTER_L);
    }
  }

  lemma {:induction false} EscapeCounts(f: Text, i: nat, env: Env, a: nat, sp: Spec)
    requires i <= |f|
    ensures var e := ReadEscape(f, i, env, a, sp);
            e.a == a + CountIn(f, i, e.at, STAR) && e.sp.lflag == sp.lflag + CountIn(f, i, e.at, LETTER_L)
    decreases |f| - i
  {
    hide ReadFlag, IsFlag;
    if IsFlag(At(f, i)) {
      var e := ReadFlag(f, i, env, a, sp);
      FlagCounts(f, i, env, a, sp);
      EscapeCounts(f, e.at, env, e.a, e.sp);
      var e' := ReadEscape(f, i, env, a, sp);
      CountSplit(f, i, e.at, e'.at, STAR);
      CountSplit(f, i, e.at, e'.at, LETTER_L);
    }
  }

  /** Whatever flags, widths, stars and lengths stand in an escape, in any order: it takes one argument for each star,
      none for %%, two for a number with at least two 'l', and one for any other conversion. */
  lemma ArgumentsTaken(f: Text, i: nat, env: Env, a: nat)
    requires i < |f| && f[i] == PERCENT && Known(At(f, ReadEscape(f, i + 1, env, a, PLAIN).at))
    ensures var j := ReadEscape(f, i + 1, env, a, PLAIN).at;
            && i < j < |f| && Next(f, i, env, a).next == j + 1
            && Next(f, i, env, a).a == a + CountIn(f, i, j, STAR) + Taken(f[j], CountIn(f, i, j, LETTER_L))
  {
    hide ReadEscape, Number, Signed, Field, ErrorText;
    EscapeCounts(f, i + 1, env, a, PLAIN);
    var j := ReadEscape(f, i + 1, env, a, PLAIN).at;
    assert j < |f|;
    CountSplit(f, i, i + 1, j, STAR);
    CountSplit(f, i, i + 1, j, LETTER_L);
  }

  // ---------------------------------------------------------------- the parser reads what was meant

  /** `t` stands in `f` at `i`, and does not end the format. */
  predicate StandsAt(f: Text, i: nat, t: Text) {
    i + |t| < |f| && f[i..i + |t|] == t
  }

  lemma DimReads(f: Text, i: nat, d: Dim, env: Env, a: nat, sp: Spec)
    requires DimOk(d) && StandsAt(f, i, DimText(d)) && !IsDigit(f[i + |DimText(d)|])
    ensures ReadEscape(f, i, env, a, sp) ==
            ReadEscape(f, i + |DimText(d)|, env, a + Stars(d),
                       if d.Absent? then sp else Process(sp.(precision := DimValue(d, env, a))))
  {
    hide Digits, ReadEscape, Process, IntOf;
    match d
    case Absent =>
    case Written(n) => WrittenReads(f, i, n, env, a, sp);
    case Star =>
      assert f[i] == f[i..i + 1][0];
      FirstFlag(f, i, env, a, sp);
  }

  lemma WrittenReads(f: Text, i: nat, n: nat, env: Env, a: nat, sp: Spec)
    requires n > 0 && StandsAt(f, i, Digits(n, 10)) && !IsDigit(f[i + |Digits(n, 10)|])
    ensures ReadEscape(f, i, env, a, sp) ==
            ReadEscape(f, i + |Digits(n, 10)|, env, a, Process(sp.(precision := n)))
  {
    hide Digits, ReadEscape, Process, IsDigit;
    var g, rest := f[..i], f[i + |Digits(n, 10)|..];
    assert f == g + Digits(n, 10) + rest;
    assert rest[0] == f[i + |Digits(n, 10)|];
    WidthRead(g, n, rest, env, a, sp);
  }

  lemma AltReads(f: Text, i: nat, alt: bool, env: Env, a: nat, sp: Spec)
    requires StandsAt(f, i, AltText(alt)) && !sp.alt
    ensures ReadEscape(f, i, env, a, sp) == ReadEscape(f, i + |AltText(alt)|, env, a, sp.(alt := alt))
  {
    hide ReadEscape;
    if alt {
      assert f[i] == f[i..i + 1][0];
      FirstFlag(f, i, env, a, sp);
    } else {
      assert sp.(alt := false) == sp;
    }
  }

  lemma PadReads(f: Text, i: nat, padc: int, env: Env, a: nat, sp: Spec)
    requires IsPad(padc) && StandsAt(f, i, PadFlag(padc)) && sp.padc == SPACE
    ensures ReadEscape(f, i, env, a, sp) == ReadEscape(f, i + |PadFlag(padc)|, env, a, sp.(padc := padc))
  {
    hide ReadEscape;
    if padc == SPACE {
      assert sp.(padc := SPACE) == sp;
    } else {
      assert f[i] == f[i..i + 1][0];
      FirstFlag(f, i, env, a, sp);
    }
  }

  lemma DotReads(f: Text, i: nat, env: Env, a: nat, sp: Spec)
    requires i < |f| && f[i] == DOT
    ensures ReadEscape(f, i, env, a, sp) ==
            ReadEscape(f, i + 1, env, a, sp.(width := if sp.width < 0 then 0 else sp.width))
  {
    FirstFlag(f, i, env, a, sp);
    assert sp.width >= 0 ==> sp.(width := sp.width) == sp;
  }

  lemma BehindDot(f: Text, i: nat, t: Text)
    requires StandsAt(f, i, [DOT] + t)
    ensures f[i] == DOT && StandsAt(f, i + 1, t)
  {
    var u := [DOT] + t;
    assert f[i] == f[i..i + |u|][0];
    assert f[i + 1..i + |u|] == f[i..i + |u|][1..] == t;
  }

  lemma PrecisionReads(f: Text, i: nat, d: Dim, env: Env, a: nat, sp: Spec)
    requires DimOk(d) && StandsAt(f, i, PrecisionText(d)) && !IsDigit(f[i + |PrecisionText(d)|])
    ensures ReadEscape(f, i, env, a, sp) ==
            ReadEscape(f, i + |PrecisionText(d)|, env, a + Stars(d),
                       if d.Absent? then sp
                       else sp.(width := if sp.width < 0 then 0 else sp.width, precision := DimValue(d, env, a)))
  {
    hide ReadEscape, DimText, IsDigit, StandsAt, IntOf;
    if !d.Absent? {
      BehindDot(f, i, DimText(d));
      DotReads(f, i, env, a, sp);
      var sp1 := sp.(width := if sp.width < 0 then 0 else sp.width);
      EndOfDot(f, i, DimText(d));
      DimReads(f, i + 1, d, env, a, sp1);
      assert Process(sp1.(precision := DimValue(d, env, a))) == sp1.(precision := DimValue(d, env, a));
    }
  }

  lemma EndOfDot(f: Text, i: nat, t: Text)
    requires StandsAt(f, i, [DOT] + t) && !IsDigit(f[i + |[DOT] + t|])
    ensures i + 1 + |t| < |f| && !IsDigit(f[i + 1 + |t|])
  {
    assert |[DOT] + t| == 1 + |t|;
  }

  lemma {:induction false} LongsRead(f: Text, i: nat, n: nat, env: Env, a: nat, sp: Spec)
    requires StandsAt(f, i, Repeat(LETTER_L, n))
    ensures ReadEscape(f, i, env, a, sp) == ReadEscape(f, i + n, env, a, sp.(lflag := sp.lflag + n))
    decreases n
  {
    hide ReadEscape;
    if n > 0 {
      assert f[i] == f[i..i + n][0];
      assert f[i + 1..i + n] == f[i..i + n][1..] == Repeat(LETTER_L, n)[1..] == Repeat(LETTER_L, n - 1);
      FirstFlag(f, i, env, a, sp);
      LongsRead(f, i + 1, n - 1, env, a, sp.(lflag := sp.lflag + 1));
    } else {
      assert sp.(lflag := sp.lflag + 0) == sp;
    }
  }

  /** The next part of a format, and what is left behind it. */
  lemma NextPart(f: Text, g: Text, t: Text, r: Text, rest: Text)
    requires f == g + (t + r) + rest && r != []
    ensures StandsAt(f, |g|, t) && f == (g + t) + r + rest && f[|g| + |t|] == r[0]
  {
    assert g + (t + r) + rest == (g + t) + r + rest;
    assert f[|g|..|g| + |t|] == t;
  }

  /** The places of the parts. */
  lemma Places(f: Text, g: Text, t1: Text, t2: Text, t3: Text, t4: Text, t5: Text, c: int, rest: Text)
    requires f == g + (t1 + (t2 + (t3 + (t4 + (t5 + [c]))))) + rest
    ensures var i1, i2 := |g| + |t1|, |g| + |t1| + |t2|;
            var i3, i4, i5 := i2 + |t3|, i2 + |t3| + |t4|, i2 + |t3| + |t4| + |t5|;
            && StandsAt(f, |g|, t1) && StandsAt(f, i1, t2) && StandsAt(f, i2, t3) && StandsAt(f, i3, t4)
            && StandsAt(f, i4, t5) && i5 < |f| && f[i5] == c
            && f[i4] == (t5 + [c])[0] && f[i3] == (t4 + (t5 + [c]))[0]
  {
    hide StandsAt;
    var r5 := t5 + [c];
    var r4 := t4 + r5;
    var r3 := t3 + r4;
    var r2 := t2 + r3;
    NextPart(f, g, t1, r2, rest);
    NextPart(f, g + t1, t2, r3, rest);
    NextPart(f, g + t1 + t2, t3, r4, rest);
    NextPart(f, g + t1 + t2 + t3, t4, r5, rest);
    NextPart(f, g + t1 + t2 + t3 + t4, t5, [c], rest);
  }

  /** Behind a width or a precision there is no digit. */
  lemma NoDigitBehind(p: Dim, longs: nat, ch: int)
    requires DimOk(p) && Known(ch)
    ensures !IsDigit((Repeat(LETTER_L, longs) + [ch])[0])
    ensures !IsDigit((PrecisionText(p) + (Repeat(LETTER_L, longs) + [ch]))[0])
  {
    hide DimText;
    assert !IsDigit(ch);
    var t := Repeat(LETTER_L, longs);
    assert (t + [ch])[0] == if longs > 0 then LETTER_L else ch;
    assert (PrecisionText(p) + (t + [ch]))[0] == if p.Absent? then (t + [ch])[0] else DOT;
  }

  /** Where flag '#', padding, width, precision and length of `d` end when the body starts at `i`. */
  function EndAlt(i: nat, d: Directive): nat {
    i + |AltText(d.alt)|
  }

  function EndPad(i: nat, d: Directive): nat {
    EndAlt(i, d) + |PadFlag(d.padc)|
  }

  function EndWidth(i: nat, d: Directive): nat
    requires WellFormed(d)
  {
    EndPad(i, d) + |DimText(d.width)|
  }

  function EndPrecision(i: nat, d: Directive): nat
    requires WellFormed(d)
  {
    EndWidth(i, d) + |PrecisionText(d.precision)|
  }

  /** The body of `d` stands in `f` at `i`. */
  predicate Laid(f: Text, i: nat, d: Directive)
    requires WellFormed(d)
  {
    && StandsAt(f, i, AltText(d.alt)) && StandsAt(f, EndAlt(i, d), PadFlag(d.padc))
    && StandsAt(f, EndPad(i, d), DimText(d.width)) && !IsDigit(f[EndWidth(i, d)])
    && StandsAt(f, EndWidth(i, d), PrecisionText(d.precision)) && !IsDigit(f[EndPrecision(i, d)])
    && StandsAt(f, EndPrecision(i, d), Repeat(LETTER_L, d.longs)) && f[EndPrecision(i, d) + d.longs] == d.ch
  }

  lemma IsLaid(g: Text, d: Directive, rest: Text)
    requires WellFormed(d)
    ensures Laid(g + Body(d) + rest, |g|, d) && EndPrecision(|g|, d) + d.longs == |g| + |Body(d)| - 1
  {
    hide DimText, PrecisionText, AltText, PadFlag, Known, Repeat, StandsAt, IsDigit, IsPad, DimOk;
    Places(g + Body(d) + rest, g, AltText(d.alt), PadFlag(d.padc), DimText(d.width), PrecisionText(d.precision),
           Repeat(LETTER_L, d.longs), d.ch, rest);
    NoDigitBehind(d.precision, d.longs, d.ch);
    BodyLength(d);
    LengthOfLongs(d.longs);
  }

  lemma LengthOfLongs(n: nat)
    ensures |Repeat(LETTER_L, n)| == n
  {
  }

  lemma BodyLength(d: Directive)
    requires WellFormed(d)
    ensures |Body(d)| == |AltText(d.alt)| + |PadFlag(d.padc)| + |DimText(d.width)| + |PrecisionText(d.precision)|
                         + |Repeat(LETTER_L, d.longs)| + 1
  {
    hide DimText, PrecisionText, AltText, PadFlag, Known, Repeat;
  }

  lemma FlagsRead(f: Text, i: nat, d: Directive, env: Env, a: nat)
    requires WellFormed(d) && Laid(f, i, d)
    ensures ReadEscape(f, i, env, a, PLAIN) ==
            ReadEscape(f, EndPad(i, d), env, a, Spec(d.padc, -1, -1, 0, d.alt))
  {
    hide ReadEscape, AltText, PadFlag, DimText, PrecisionText, StandsAt;
    AltReads(f, i, d.alt, env, a, PLAIN);
    PadReads(f, EndAlt(i, d), d.padc, env, a, PLAIN.(alt := d.alt));
  }

  lemma SizesRead(f: Text, i: nat, d: Directive, env: Env, a: nat)
    requires WellFormed(d) && Laid(f, i, d)
    ensures ReadEscape(f, EndPad(i, d), env, a, Spec(d.padc, -1, -1, 0, d.alt)) ==
            ReadEscape(f, EndPrecision(i, d), env, a + Stars(d.width) + Stars(d.precision),
                       SpecOf(d, env, a).(lflag := 0))
  {
    hide ReadEscape, AltText, PadFlag, DimText, PrecisionText, StandsAt;
    var sp := Spec(d.padc, -1, -1, 0, d.alt);
    DimReads(f, EndPad(i, d), d.width, env, a, sp);
    var w := DimValue(d.width, env, a);
    assert d.width.Absent? ==> w == -1;
    PrecisionReads(f, EndWidth(i, d), d.precision, env, a + Stars(d.width), sp.(width := w));
  }

  /** vprintfmt reads every escape as it is meant, wherever it stands in a format. */
  lemma DirectiveReads(g: Text, d: Directive, rest: Text, env: Env, a: nat)
    requires WellFormed(d)
    ensures var f := g + Body(d) + rest;
            && |g| + |Body(d)| - 1 < |f| && f[|g| + |Body(d)| - 1] == d.ch
            && ReadEscape(f, |g|, env, a, PLAIN) ==
               Escape(SpecOf(d, env, a), |g| + |Body(d)| - 1, a + Stars(d.width) + Stars(d.precision))
  {
    IsLaid(g, d, rest);
    LaidReads(g + Body(d) + rest, |g|, d, env, a);
  }

  lemma EndReads(f: Text, i: nat, longs: nat, env: Env, a: nat, sp: Spec)
    requires StandsAt(f, i, Repeat(LETTER_L, longs)) && i + longs < |f| && Known(f[i + longs]) && sp.lflag == longs
    ensures ReadEscape(f, i, env, a, sp.(lflag := 0)) == Escape(sp, i + longs, a)
  {
    hide ReadEscape, StandsAt, Repeat, Known, IsFlag;
    LongsRead(f, i, longs, env, a, sp.(lflag := 0));
    KnownIsNoFlag(f[i + longs]);
    FirstFlag(f, i + longs, env, a, sp);
  }

  lemma LaidEnd(f: Text, i: nat, d: Directive)
    requires WellFormed(d) && Laid(f, i, d)
    ensures var e := EndPrecision(i, d);
            StandsAt(f, e, Repeat(LETTER_L, d.longs)) && e + d.longs < |f| && f[e + d.longs] == d.ch && Known(d.ch)
  {
    hide EndPrecision, EndWidth, EndPad, EndAlt, Known;
    LengthOfLongs(d.longs);
  }

  lemma SpecLongs(d: Directive, env: Env, a: nat)
    ensures SpecOf(d, env, a).lflag == d.longs
  {
  }

  lemma LaidReads(f: Text, i: nat, d: Directive, env: Env, a: nat)
    requires WellFormed(d) && Laid(f, i, d)
    ensures EndPrecision(i, d) + d.longs < |f| && f[EndPrecision(i, d) + d.longs] == d.ch
    ensures ReadEscape(f, i, env, a, PLAIN) ==
            Escape(SpecOf(d, env, a), EndPrecision(i, d) + d.longs, a + Stars(d.width) + Stars(d.precision))
  {
    hide ReadEscape, Laid, SpecOf, EndPrecision, EndPad, Known, StandsAt;
    FlagsRead(f, i, d, env, a);
    SizesRead(f, i, d, env, a);
    LaidEnd(f, i, d);
    SpecLongs(d, env, a);
    EndReads(f, EndPrecision(i, d), d.longs, env, a + Stars(d.width) + Stars(d.precision), SpecOf(d, env, a));
  }

  // ---------------------------------------------------------------- what an escape prints

  /** The argument behind an escape. */
  function ArgBehind(d: Directive, a: nat): nat {
    a + Stars(d.width) + Stars(d.precision) + Taken(d.ch, d.longs)
  }

  lemma Renders(d: Directive, rest: Text, env: Env, a: nat)
    requires WellFormed(d)
    ensures var f := Render(d) + rest;
            var a1 := a + Stars(d.width) + Stars(d.precision);
            Next(f, 0, env, a) == Piece(Convert(d.ch, SpecOf(d, env, a), env, a1).0, |Render(d)|, ArgBehind(d, a))
  {
    hide ReadEscape, Body, SpecOf, Known, Number, Signed, Field, ErrorText;
    var f := Render(d) + rest;
    assert f == [PERCENT] + Body(d) + rest;
    DirectiveReads([PERCENT], d, rest, env, a);
    SpecLongs(d, env, a);
    TakenIs(d.ch, SpecOf(d, env, a), env, a + Stars(d.width) + Stars(d.precision));
  }

  lemma TakenIs(ch: int, sp: Spec, env: Env, a: nat)
    requires Known(ch)
    ensures Convert(ch, sp, env, a).1 == a + Taken(ch, sp.lflag)
  {
    hide Number, Signed, Field, ErrorText;
  }

  /** Behind an escape the format goes on with the arguments behind those that the escape has taken. */
  lemma PrintsOn(d: Directive, rest: Text, env: Env, a: nat)
    requires WellFormed(d)
    ensures Printed(Render(d) + rest, 0, env, a) ==
            Printed(Render(d), 0, env, a) + Printed(rest, 0, env, ArgBehind(d, a))
  {
    hide Next, Convert, Render;
    assert |Render(d)| > 0 by { RenderIsNotEmpty(d); }
    assert Render(d) + [] == Render(d);
    Renders(d, rest, env, a);
    Renders(d, [], env, a);
    PrintedShift(Render(d), rest, 0, env, ArgBehind(d, a));
    assert Printed(Render(d), |Render(d)|, env, ArgBehind(d, a)) == [];
  }

  lemma RenderIsNotEmpty(d: Directive)
    requires WellFormed(d)
    ensures |Render(d)| > 0
  {
  }

  /** "%s%d", as in the name of a partition: the text that the first argument points to, and the second argument. */
  lemma StringThenNumber(env: Env, a: nat)
    requires env.args(a) != 0
    ensures Printed([PERCENT, LETTER_S, PERCENT, LETTER_D], 0, env, a) ==
            env.str(env.args(a)) + Signed(IntOf(env.args(a + 1)), -1, SPACE)
  {
    hide Printed, Signed;
    var s := Directive(false, SPACE, Absent, Absent, 0, LETTER_S);
    var n := s.(ch := LETTER_D);
    assert Render(s) == [PERCENT, LETTER_S] && Render(n) == [PERCENT, LETTER_D];
    assert Render(s) + Render(n) == [PERCENT, LETTER_S, PERCENT, LETTER_D];
    PrintsOn(s, Render(n), env, a);
    StringFormat(env, a);
    DecimalFormat(env, a + 1);
  }

  // ---------------------------------------------------------------- the text of each conversion

  /** `t` is `prefix`, padding, and `k` digits that denote `num` in the base, without a leading 0. */
  predicate NumberField(t: Text, prefix: Text, num: int, base: nat, width: int, padc: int, k: nat) {
    && k >= 1 && |t| == |prefix| + (if width > k then width else k)
    && t[..|prefix|] == prefix
    && (var ds := t[|t| - k..];
        IsDigits(ds, base) && Value(Vals(ds), base) == num && (ds[0] == ZERO <==> num == 0))
    && (forall i :: |prefix| <= i < |t| - k ==> t[i] == padc)
  }

  lemma NumberIsField(prefix: Text, num: nat, base: nat, width: int, padc: int)
    requires 2 <= base <= 16
    ensures NumberField(prefix + Number(num, base, width, padc), prefix, num, base, width, padc,
                        |Digits(num, base)|)
  {
    hide Digits, IsDigits, Value, Vals;
    var ds := Digits(num, base);
    var t := prefix + Number(num, base, width, padc);
    DigitsDenote(num, base);
    NoLeadingZero(num, base);
    assert t == prefix + Repeat(padc, width - |ds|) + ds;
    assert t[|t| - |ds|..] == ds;
    assert t[..|prefix|] == prefix;
  }

  /** The unsigned and the signed value of one argument word, or of two. */
  function UnsignedValue(env: Env, a: nat, longs: nat): int {
    if longs < 2 then env.args(a) else env.args(a) + 0x1_0000_0000 * env.args(a + 1)
  }

  function SignedValue(env: Env, a: nat, longs: nat): int {
    var u, top := UnsignedValue(env, a, longs), if longs < 2 then 0x8000_0000 else 0x8000_0000_0000_0000;
    if u < top then u else u - 2 * top
  }

  lemma ValuesAgree(env: Env, a: nat, longs: nat)
    ensures Unsigned(env, a, longs) == UnsignedValue(env, a, longs)
    ensures SignedArg(env, a, longs) == SignedValue(env, a, longs)
  {
  }

  lemma PrintsConversion(d: Directive, env: Env, a: nat)
    requires WellFormed(d)
    ensures Printed(Render(d), 0, env, a) ==
            Convert(d.ch, SpecOf(d, env, a), env, a + Stars(d.width) + Stars(d.precision)).0
  {
    hide Next, Convert, Render;
    RenderIsNotEmpty(d);
    assert Render(d) + [] == Render(d);
    Renders(d, [], env, a);
    assert Printed(Render(d), |Render(d)|, env, ArgBehind(d, a)) == [];
  }

  /** %u, %o, %x, %p and %d print digits that denote the value of their argument, behind a sign, or 0x, in a field of
      the width that was meant. */
  lemma NumbersPrinted(d: Directive, env: Env, a: nat) returns (k: nat)
    requires WellFormed(d) && d.ch in {LETTER_U, LETTER_O, LETTER_X, LETTER_P, LETTER_D}
    ensures var t, sp, a1 := Printed(Render(d), 0, env, a), SpecOf(d, env, a), a + Stars(d.width) + Stars(d.precision);
            var u, n := UnsignedValue(env, a1, d.longs), SignedValue(env, a1, d.longs);
            if d.ch == LETTER_D then
              NumberField(t, if n < 0 then [MINUS] else [], if n < 0 then -n else n, 10, sp.width, d.padc, k)
            else if d.ch == LETTER_P then NumberField(t, [ZERO, LETTER_X], env.args(a1), 16, sp.width, d.padc, k)
            else NumberField(t, [], u, if d.ch == LETTER_U then 10 else if d.ch == LETTER_O then 8 else 16, sp.width,
                             d.padc, k)
  {
    hide Printed, Render, Digits, NumberField, Unsigned, SignedArg, UnsignedValue, SignedValue;
    PrintsConversion(d, env, a);
    var sp, a1 := SpecOf(d, env, a), a + Stars(d.width) + Stars(d.precision);
    ValuesAgree(env, a1, d.longs);
    var u, n := Unsigned(env, a1, d.longs), SignedArg(env, a1, d.longs);
    var v, base, prefix: Text :=
      if d.ch == LETTER_D then (if n < 0 then -n else n) else if d.ch == LETTER_P then env.args(a1) else u,
      if d.ch == LETTER_D || d.ch == LETTER_U then 10 else if d.ch == LETTER_O then 8 else 16,
      if d.ch == LETTER_D && n < 0 then [MINUS] else if d.ch == LETTER_P then [ZERO, LETTER_X] else [];
    NumberIsField(prefix, v, base, sp.width, d.padc);
    k := |Digits(v, base)|;
    assert prefix == [] ==> prefix + Number(v, base, sp.width, d.padc) == Number(v, base, sp.width, d.padc);
  }

  /** %c prints the character, %% a '%'; %s prints a field with the text, or with "(null)"; width and padding do not
      matter to %c and %%. */
  lemma TextsPrinted(d: Directive, env: Env, a: nat)
    requires WellFormed(d) && d.ch in {LETTER_C, PERCENT, LETTER_S}
    ensures var t, sp, a1 := Printed(Render(d), 0, env, a), SpecOf(d, env, a), a + Stars(d.width) + Stars(d.precision);
            var p := env.args(a1);
            && (d.ch == LETTER_C ==> t == [IntOf(p)])
            && (d.ch == PERCENT ==> t == [PERCENT])
            && (d.ch == LETTER_S ==>
                  var s := if p == 0 then Codes("(null)") else env.str(p);
                  var n := if 0 <= sp.precision < |s| then sp.precision else |s|;
                  var at := if d.padc == MINUS then 0 else |t| - n;
                  && |t| == (if sp.width > n then sp.width else n)
                  && t[at..at + n] == CleanText(s[..n], d.alt)
                  && (forall i :: 0 <= i < |t| && !(at <= i < at + n) ==>
                        t[i] == if d.padc == MINUS then SPACE else d.padc))
  {
    hide Printed, Render, CleanText, Codes, Field;
    PrintsConversion(d, env, a);
    if d.ch == LETTER_S {
      var a1 := a + Stars(d.width) + Stars(d.precision);
      FieldExact(PointedText(env, env.args(a1)), SpecOf(d, env, a));
    }
  }

  /** With '#', each character of %s that cannot be printed becomes '?', and the others stay. */
  lemma CleanExact(s: Text, alt: bool, i: nat)
    requires i < |s|
    ensures CleanText(s, alt)[i] == if alt && !(' ' as int <= s[i] <= '~' as int) then '?' as int else s[i]
  {
  }

  const MESSAGES := ["unspecified error", "bad process", "invalid parameter", "out of memory", "out of processes",
                     "segmentation fault"]

  /** %e prints the message of the error, whatever its sign, or its number. */
  lemma ErrorsPrinted(d: Directive, env: Env, a: nat)
    requires WellFormed(d) && d.ch == LETTER_E
    ensures var t, n := Printed(Render(d), 0, env, a), SignedValue(env, a + Stars(d.width) + Stars(d.precision), 0);
            var err := if n < 0 then -n else n;
            && (1 <= err <= 6 ==> t == Codes(MESSAGES[err - 1]))
            && (err == 0 || 6 < err < 0x8000_0000 ==>
                  t == Codes("error ") + Digits(err, 10))
  {
    hide Printed, Render, Codes, Digits;
    PrintsConversion(d, env, a);
    var n := SignedValue(env, a + Stars(d.width) + Stars(d.precision), 0);
    ErrorIs(n);
    var err := if n < 0 then -n else n;
    assert Repeat(SPACE, -1 - |Digits(err, 10)|) == [];
  }

  lemma ErrorIs(n: int)
    requires -0x8000_0000 <= n < 0x8000_0000
    ensures var err := if n < 0 then -n else n;
            && (1 <= err <= 6 ==> ErrorText(n) == Codes(MESSAGES[err - 1]))
            && (err == 0 || 6 < err < 0x8000_0000 ==> ErrorText(n) == Codes("error ") + Signed(err, -1, SPACE))
  {
    hide Signed, ErrorString, Codes;
    var err := if n < 0 then -n else n;
    if 1 <= err <= 6 {
      Messages(err);
    } else {
      NoMessage();
    }
  }

  lemma Messages(k: int)
    requires 1 <= k <= 6
    ensures ErrorString(k) == Codes(MESSAGES[k - 1]) && ErrorString(k) != []
  {
    assert |Codes(MESSAGES[k - 1])| == |MESSAGES[k - 1]| > 0;
    hide Codes;
  }

  lemma NoMessage()
    ensures ErrorString(0) == []
  {
    hide Codes;
  }

  /** A precision of 0 cannot be written: behind the point a 0 is the flag, and no number follows, so %.0s prints all of
      the text. */
  lemma NoPrecisionZero(env: Env, a: nat)
    requires env.args(a) != 0
    ensures Printed([PERCENT, DOT, ZERO, LETTER_S], 0, env, a) == env.str(env.args(a))
  {
    hide Clean, Printed;
    var f, s := [PERCENT, DOT, ZERO, LETTER_S], env.str(env.args(a));
    FirstFlag(f, 1, env, a, PLAIN);
    FirstFlag(f, 2, env, a, PLAIN.(width := 0));
    var sp := PLAIN.(width := 0, padc := ZERO);
    FirstFlag(f, 3, env, a, sp);
    LastPiece(f, env, a, sp, LETTER_S);
    CleanOff(s);
    assert Repeat(ZERO, 0 - |s|) == [];
  }
}
