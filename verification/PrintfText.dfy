/** common/libc/printf/__printf.c: the text a format and its arguments call for. */
module PrintfText {

  import opened Collections
  import opened Words
  import opened Numerals
  import Nonlinear

  /** A variable argument as far as any conversion looks at it: a number, or a string (None for a null
      pointer) given by the characters before its terminator. */
  datatype Arg = Arg(i: int, s: Option<string>)

  datatype Size = INTSZ | LONGSZ | LLONGSZ | SIZETSZ

  /** The part of the state that modifier characters set. */
  datatype Field = Field(size: Size, spacing: nat, rightspc: bool, fillchar: char, altformat: bool)

  const PLAIN := Field(INTSZ, 0, false, ' ', false)
  const MODIFIERS := "#-lz0123456789"
  const INTEGERS := "doupx"

  function Modifier(f: Field, ch: char): Field
    requires ch in MODIFIERS
  {
    if ch == '#' then f.(altformat := true)
    else if ch == '-' then f.(rightspc := true)
    else if ch == 'l' then f.(size := if f.size.LONGSZ? then LLONGSZ else LONGSZ)
    else if ch == 'z' then f.(size := SIZETSZ)
    else if ch == '0' then if f.spacing > 0 then f.(spacing := f.spacing * 10) else f.(fillchar := '0')
    else f.(spacing := f.spacing * 10 + DigitValue(ch))
  }

  function Signed32(x: int): int { var w: int := Wrap32(x); if w < 0x8000_0000 then w else w - W32 }

  function Signed64(x: int): int { var w: int := Wrap64(x); if w < 0x8000_0000_0000_0000 then w else w - W64 }

  /** The number a conversion prints, as magnitude and sign. */
  function GetNum(size: Size, ch: char, i: int): (ULong, bool)
  {
    if ch == 'p' then (Wrap32(i), false)
    else if ch == 'd' then
      var n := if size.LLONGSZ? then Signed64(i) else Signed32(i);
      if n < 0 then (Wrap64(-n), true) else (n, false)
    else (if size.LLONGSZ? then Wrap64(i) else Wrap32(i), false)
  }

  function Base(ch: char): nat
  { if ch == 'd' || ch == 'u' then 10 else if ch == 'x' || ch == 'p' then 16 else 8 }

  function BasePrefix(base: nat, wanted: bool): string
  { if wanted && base == 16 then "0x" else if wanted && base == 8 then "0" else "" }

  function Fill(c: char, n: nat): string { seq(n, _ => c) }

  function Padding(f: Field, len: nat): nat { if f.spacing > len then f.spacing - len else 0 }

  /** Padding on the left goes before the prefixes, unless it is zeros; padding on the right goes last. */
  function Stuff(f: Field, prefix: string, prefix2: string, stuff: string): string
  {
    var pad := Fill(f.fillchar, Padding(f, |prefix| + |prefix2| + |stuff|));
    if f.rightspc then prefix + prefix2 + stuff + pad
    else if f.fillchar == '0' then prefix + prefix2 + pad + stuff
    else pad + prefix + prefix2 + stuff
  }

  function NumText(f: Field, ch: char, i: int): string
  {
    var (num, neg) := GetNum(f.size, ch, i);
    Stuff(f, if neg then "-" else "", BasePrefix(Base(ch), f.altformat || ch == 'p'), DigitString(num, Base(ch)))
  }

  function CharText(c: char): string { if c == '\0' then "" else [c] }

  function CharArg(i: int): char { (i % 256) as char }

  /** Any character that ends a directive. */
  function Conversion(f: Field, ch: char, a: Arg): string
  {
    if ch in INTEGERS then NumText(f, ch, a.i)
    else if ch == 's' then Stuff(f, "", "", if a.s.None? then "(null)" else a.s.value)
    else Stuff(f, "", "", CharText(if ch == 'c' then CharArg(a.i) else ch))
  }

  predicate UsesArg(ch: char) { ch in INTEGERS || ch == 's' || ch == 'c' }

  /** Between two characters of the format: inside a directive or not, its field, arguments used. */
  datatype Scan = Scan(inPct: bool, field: Field, used: nat)

  const START := Scan(false, PLAIN, 0)

  function Next(sc: Scan, ch: char): Scan
  {
    if !sc.inPct then if ch != '%' then sc else sc.(inPct := true)
    else if ch in MODIFIERS then sc.(field := Modifier(sc.field, ch))
    else Scan(false, PLAIN, if UsesArg(ch) then sc.used + 1 else sc.used)
  }

  function Emit(sc: Scan, ch: char, args: nat -> Arg): string
  {
    if !sc.inPct then if ch != '%' then [ch] else ""
    else if ch in MODIFIERS then ""
    else Conversion(sc.field, ch, args(sc.used))
  }

  function Output(sc: Scan, fmt: string, args: nat -> Arg): string
    decreases |fmt|
  {
    if fmt == [] then "" else Emit(sc, fmt[0], args) + Output(Next(sc, fmt[0]), fmt[1..], args)
  }

  predicate AreModifiers(mods: string) { forall i :: 0 <= i < |mods| ==> mods[i] in MODIFIERS }

  /** The field a string of modifiers describes. */
  function FieldOf(f: Field, mods: string): Field
    requires AreModifiers(mods)
    decreases |mods|
  {
    if mods == [] then f else FieldOf(Modifier(f, mods[0]), mods[1..])
  }

  lemma {:induction false} OutputOfModifiers(f: Field, used: nat, mods: string, ch: char, args: nat -> Arg)
    requires AreModifiers(mods) && ch !in MODIFIERS
    ensures Output(Scan(true, f, used), mods + [ch], args) == Conversion(FieldOf(f, mods), ch, args(used))
    decreases |mods|
  {
    if mods == [] {
      assert mods + [ch] == [ch] && [ch][1..] == [];
      assert Output(Next(Scan(true, f, used), ch), [], args) == "";
    } else {
      assert (mods + [ch])[1..] == mods[1..] + [ch];
      OutputOfModifiers(Modifier(f, mods[0]), used, mods[1..], ch, args);
    }
  }

  /** One directive on its own prints its conversion, in the field its modifiers describe. */
  lemma OutputOfDirective(mods: string, ch: char, args: nat -> Arg)
    requires AreModifiers(mods) && ch !in MODIFIERS
    ensures Output(START, "%" + mods + [ch], args) == Conversion(FieldOf(PLAIN, mods), ch, args(0))
  {
    var fmt := "%" + mods + [ch];
    assert fmt[0] == '%' && fmt[1..] == mods + [ch];
    OutputOfModifiers(PLAIN, 0, mods, ch, args);
  }

  lemma DigitsAreModifiers(d: string)
    requires AllDigits(d)
    ensures AreModifiers(d)
  {
    forall i | 0 <= i < |d| ensures d[i] in MODIFIERS {
      var k := 4 + DigitValue(d[i]);
      assert MODIFIERS[k] == d[i];
    }
  }

  lemma FieldStep(f: Field, mods: string)
    requires AreModifiers(mods)
    ensures FieldOf(f, mods) == if mods == [] then f else FieldOf(Modifier(f, mods[0]), mods[1..])
  {
  }

  lemma DigitModifier(f: Field, c: char)
    requires IsDigit(c) && c in MODIFIERS
    ensures DigitValue(c) == 0 <==> c == '0'
    ensures Modifier(f, c).spacing == f.spacing * 10 + DigitValue(c)
    ensures Modifier(f, c).fillchar == if f.spacing == 0 && c == '0' then '0' else f.fillchar
    ensures Modifier(f, c) == f.(spacing := Modifier(f, c).spacing, fillchar := Modifier(f, c).fillchar)
  {
  }

  lemma PowerOfTen(n: nat)
    ensures Pow(10, 0) == 1 && (n > 0 ==> Pow(10, n) == 10 * Pow(10, n - 1))
  {
  }

  lemma FirstDigit(d: string)
    requires d != []
    ensures Value(d, 10) == DigitValue(d[0]) * Pow(10, |d| - 1) + Value(d[1..], 10)
  {
    assert d == [d[0]] + d[1..] && [d[0]] == [] + [d[0]];
    ValueConcat([d[0]], d[1..], 10);
    ValueSnoc([], d[0], 10);
    NoValue(10);
  }

  lemma Horner(s: nat, c: nat, p: nat, v: nat)
    ensures (s * 10 + c) * p + v == s * (10 * p) + (c * p + v)
  {
    Nonlinear.Distribute(s * 10, c, p);
    Nonlinear.Assoc(s, 10, p);
  }

  /** A string of digits is the width it spells; a zero before any other digit also sets the padding. */
  lemma {:induction false} WidthIsNumeral(f: Field, d: string)
    requires AllDigits(d)
    ensures AreModifiers(d)
    ensures FieldOf(f, d).spacing == f.spacing * Pow(10, |d|) + Value(d, 10)
    ensures FieldOf(f, d).fillchar == if f.spacing == 0 && d != [] && d[0] == '0' then '0' else f.fillchar
    ensures FieldOf(f, d) == f.(spacing := FieldOf(f, d).spacing, fillchar := FieldOf(f, d).fillchar)
    decreases |d|
  {
    DigitsAreModifiers(d);
    hide Value, Pow, FieldOf, Modifier, DigitValue;
    PowerOfTen(|d|);
    FieldStep(f, d);
    if d == [] {
      NoValue(10);
    } else {
      var g := Modifier(f, d[0]);
      DigitModifier(f, d[0]);
      WidthIsNumeral(g, d[1..]);
      FirstDigit(d);
      Horner(f.spacing, DigitValue(d[0]), Pow(10, |d| - 1), Value(d[1..], 10));
    }
  }

  lemma ModifierFlags(f: Field, c: char)
    requires c in MODIFIERS
    ensures Modifier(f, c).rightspc <==> f.rightspc || c == '-'
    ensures Modifier(f, c).altformat <==> f.altformat || c == '#'
    ensures Modifier(f, c).fillchar != f.fillchar ==> c == '0'
  {
  }

  /** Each flag is up when it was, or when its character is among the modifiers. */
  lemma {:induction false} FlagsOf(f: Field, mods: string)
    requires AreModifiers(mods)
    ensures FieldOf(f, mods).rightspc <==> f.rightspc || '-' in mods
    ensures FieldOf(f, mods).altformat <==> f.altformat || '#' in mods
    ensures FieldOf(f, mods).fillchar != f.fillchar ==> '0' in mods
    decreases |mods|
  {
    FieldStep(f, mods);
    hide Modifier, FieldOf;
    if mods != [] {
      assert forall c :: c in mods <==> c == mods[0] || c in mods[1..];
      ModifierFlags(f, mods[0]);
      FlagsOf(Modifier(f, mods[0]), mods[1..]);
    }
  }

  // ------------------------------------------------------------------- formats in a row

  /** Where a format leaves the scan. */
  function ScanOf(sc: Scan, fmt: string): Scan
    decreases |fmt|
  {
    if fmt == [] then sc else ScanOf(Next(sc, fmt[0]), fmt[1..])
  }

  lemma {:induction false} OutputConcat(sc: Scan, f1: string, f2: string, args: nat -> Arg)
    ensures Output(sc, f1 + f2, args) == Output(sc, f1, args) + Output(ScanOf(sc, f1), f2, args)
    decreases |f1|
  {
    if f1 == [] {
      assert f1 + f2 == f2;
    } else {
      hide Emit, Next;
      assert (f1 + f2)[0] == f1[0] && (f1 + f2)[1..] == f1[1..] + f2;
      OutputConcat(Next(sc, f1[0]), f1[1..], f2, args);
    }
  }

  /** Outside a directive nothing of an earlier one is left. */
  lemma {:induction false} OutsideIsPlain(sc: Scan, fmt: string)
    requires !sc.inPct ==> sc.field == PLAIN
    ensures !ScanOf(sc, fmt).inPct ==> ScanOf(sc, fmt).field == PLAIN
    decreases |fmt|
  {
    if fmt != [] {
      OutsideIsPlain(Next(sc, fmt[0]), fmt[1..]);
    }
  }

  function From(args: nat -> Arg, k: nat): nat -> Arg { (i: nat) => args(i + k) }

  /** One character, with the arguments counted from k on. */
  lemma ShiftedStep(sc: Scan, ch: char, args: nat -> Arg, k: nat)
    ensures Next(sc.(used := sc.used + k), ch) == Next(sc, ch).(used := Next(sc, ch).used + k)
    ensures Emit(sc.(used := sc.used + k), ch, args) == Emit(sc, ch, From(args, k))
  {
    hide Modifier, Conversion;
  }

  lemma OutputUnfold(sc: Scan, fmt: string, args: nat -> Arg)
    ensures Output(sc, fmt, args) ==
      if fmt == [] then "" else Emit(sc, fmt[0], args) + Output(Next(sc, fmt[0]), fmt[1..], args)
  {
    hide Next, Emit;
  }

  lemma {:induction false} ArgumentsShift(sc: Scan, fmt: string, args: nat -> Arg, k: nat)
    ensures Output(sc.(used := sc.used + k), fmt, args) == Output(sc, fmt, From(args, k))
    decreases |fmt|
  {
    hide Next, Emit, Output, From;
    OutputUnfold(sc, fmt, From(args, k));
    OutputUnfold(sc.(used := sc.used + k), fmt, args);
    if fmt != [] {
      ShiftedStep(sc, fmt[0], args, k);
      ArgumentsShift(Next(sc, fmt[0]), fmt[1..], args, k);
    }
  }

  /** A format that ends outside a directive, with another put behind it, prints its own text and then the
      other's, which takes its arguments from where the first left off. */
  lemma FormatsInARow(f1: string, f2: string, args: nat -> Arg)
    requires !ScanOf(START, f1).inPct
    ensures
      Output(START, f1 + f2, args) ==
      Output(START, f1, args) + Output(START, f2, From(args, ScanOf(START, f1).used))
  {
    hide Output;
    var sc := ScanOf(START, f1);
    OutsideIsPlain(START, f1);
    OutputConcat(START, f1, f2, args);
    ArgumentsShift(START, f2, args, sc.used);
    assert sc == START.(used := START.used + sc.used);
  }

  lemma {:induction false} FillIsBlankOrZero(f: Field, mods: string)
    requires AreModifiers(mods) && (f.fillchar == ' ' || f.fillchar == '0')
    ensures FieldOf(f, mods).fillchar == ' ' || FieldOf(f, mods).fillchar == '0'
    decreases |mods|
  {
    if mods != [] {
      FillIsBlankOrZero(Modifier(f, mods[0]), mods[1..]);
    }
  }

  /** Whatever it prints, a conversion fills at least the field's width. */
  lemma FillsTheField(f: Field, prefix: string, prefix2: string, stuff: string)
    ensures |Stuff(f, prefix, prefix2, stuff)| ==
            if f.spacing > |prefix| + |prefix2| + |stuff| then f.spacing else |prefix| + |prefix2| + |stuff|
  {
  }
}
