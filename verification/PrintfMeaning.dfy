/** common/libc/printf/__printf.c: what each kind of directive prints, in terms a caller would use. */
module PrintfMeaning {

  import opened Collections
  import opened Words
  import opened Numerals
  import opened PrintfText
  import Nonlinear

  // ------------------------------------------------------------ text and single directives

  lemma {:induction false} TextPasses(sc: Scan, text: string, args: nat -> Arg)
    requires !sc.inPct && '%' !in text
    ensures Output(sc, text, args) == text && ScanOf(sc, text) == sc
    decreases |text|
  {
    if text != [] {
      assert text[0] in text;
      assert Next(sc, text[0]) == sc && Emit(sc, text[0], args) == [text[0]];
      assert forall c :: c in text[1..] ==> c in text;
      TextPasses(sc, text[1..], args);
      assert [text[0]] + text[1..] == text;
    }
  }

  /** A format without a percent sign is its own output and takes no argument. */
  lemma TextIsItself(text: string, args: nat -> Arg)
    requires '%' !in text
    ensures Output(START, text, args) == text && ScanOf(START, text) == START
  {
    TextPasses(START, text, args);
  }

  lemma {:induction false} ScanOfModifiers(f: Field, used: nat, mods: string, ch: char)
    requires AreModifiers(mods) && ch !in MODIFIERS
    ensures ScanOf(Scan(true, f, used), mods + [ch]) == Scan(false, PLAIN, if UsesArg(ch) then used + 1 else used)
    decreases |mods|
  {
    if mods == [] {
      assert mods + [ch] == [ch] && [ch][1..] == [];
      assert ScanOf(Next(Scan(true, f, used), ch), []) == Next(Scan(true, f, used), ch);
    } else {
      assert (mods + [ch])[1..] == mods[1..] + [ch];
      ScanOfModifiers(Modifier(f, mods[0]), used, mods[1..], ch);
    }
  }

  /** A directive is over with the first character that is no modifier, leaves nothing behind, and takes one
      argument if that character is one of d, o, u, p, x, s and c, otherwise none. */
  lemma DirectiveTakes(mods: string, ch: char)
    requires AreModifiers(mods) && ch !in "#-lz0123456789"
    ensures ScanOf(START, "%" + mods + [ch]) == Scan(false, PLAIN, if ch in "doupxsc" then 1 else 0)
  {
    var fmt := "%" + mods + [ch];
    assert fmt[0] == '%' && fmt[1..] == mods + [ch];
    assert Next(START, '%') == Scan(true, PLAIN, 0);
    assert UsesArg(ch) <==> ch in "doupxsc";
    ScanOfModifiers(PLAIN, 0, mods, ch);
  }

  /** Three pieces in a field: padded to its width with its fill character, on the right under '-', else
      between prefix and number if the fill is zeros, else on the left. */
  lemma FieldPlaces(f: Field, prefix: string, prefix2: string, stuff: string)
    ensures
      var r, len := Stuff(f, prefix, prefix2, stuff), |prefix| + |prefix2| + |stuff|;
      && |r| == (if f.spacing > len then f.spacing else len)
      && var n := |r| - len;
         var head, fill := prefix + prefix2, Fill(f.fillchar, n);
         && |fill| == n && (forall i :: 0 <= i < n ==> fill[i] == f.fillchar)
         && (f.rightspc ==> r == head + stuff + fill)
         && (!f.rightspc && f.fillchar == '0' ==> r == head + fill + stuff)
         && (!f.rightspc && f.fillchar != '0' ==> r == fill + (head + stuff))
  {
    var pad := Fill(f.fillchar, Padding(f, |prefix| + |prefix2| + |stuff|));
    assert pad + prefix + prefix2 + stuff == pad + (prefix + prefix2 + stuff);
  }

  lemma InNoField(f: Field, prefix: string, prefix2: string, stuff: string)
    requires f.spacing == 0
    ensures Stuff(f, prefix, prefix2, stuff) == prefix + prefix2 + stuff
  {
    FieldPlaces(f, prefix, prefix2, stuff);
    hide Stuff;
  }

  /** The directive of one character, in a field with no width. */
  lemma PlainDirective(ch: char, args: nat -> Arg)
    requires ch !in MODIFIERS
    ensures Output(START, "%" + [ch], args) == Conversion(PLAIN, ch, args(0))
  {
    assert "%" + "" + [ch] == "%" + [ch];
    OutputOfDirective("", ch, args);
  }

  lemma NotAmong(ch: char)
    ensures ch == 's' || ch == 'c' || ch == '%' ==> ch !in MODIFIERS && ch !in INTEGERS
  {
  }

  /** %s is the string, or "(null)" for a null pointer. */
  lemma StringDirective(args: nat -> Arg)
    ensures Output(START, "%s", args) == if args(0).s.Some? then args(0).s.value else "(null)"
  {
    hide Output, Stuff;
    NotAmong('s');
    PlainDirective('s', args);
    assert "%" + ['s'] == "%s";
    var text := if args(0).s.Some? then args(0).s.value else "(null)";
    InNoField(PLAIN, "", "", text);
    assert "" + "" + text == text;
  }

  /** The same in any field: what is placed is the string. */
  lemma StringInField(mods: string, args: nat -> Arg)
    requires AreModifiers(mods)
    ensures
      Output(START, "%" + mods + "s", args) ==
      Stuff(FieldOf(PLAIN, mods), "", "", if args(0).s.Some? then args(0).s.value else "(null)")
  {
    hide Output, Stuff, FieldOf;
    NotAmong('s');
    OutputOfDirective(mods, 's', args);
    assert "%" + mods + ['s'] == "%" + mods + "s";
  }

  /** %c is the character its argument has in its low byte; a zero byte prints nothing. */
  lemma CharDirective(args: nat -> Arg)
    ensures Output(START, "%c", args) == if args(0).i % 256 == 0 then "" else [(args(0).i % 256) as char]
  {
    hide Output, Stuff;
    NotAmong('c');
    PlainDirective('c', args);
    assert "%" + ['c'] == "%c";
    var text := CharText(CharArg(args(0).i));
    InNoField(PLAIN, "", "", text);
    assert "" + "" + text == text;
  }

  /** %% is a percent sign, and so is any other character that means nothing after a percent sign itself. */
  lemma OtherDirective(ch: char, args: nat -> Arg)
    requires ch !in "#-lz0123456789doupxsc" && ch != '\0'
    ensures Output(START, "%" + [ch], args) == [ch]
  {
    hide Output, Stuff;
    var known := "#-lz0123456789doupxsc";
    assert MODIFIERS + INTEGERS + "sc" == known;
    assert ch !in MODIFIERS && ch !in INTEGERS;
    assert ch != 's' && ch != 'c' by { assert known[19] == 's' && known[20] == 'c'; }
    PlainDirective(ch, args);
    InNoField(PLAIN, "", "", [ch]);
    assert "" + "" + [ch] == [ch];
  }

  lemma PercentDirective(args: nat -> Arg)
    ensures Output(START, "%%", args) == "%"
  {
    assert "%" + ['%'] == "%%";
    OtherDirective('%', args);
  }

  // ------------------------------------------------------------------- integer sizes

  /** How many l's there are after the last z. */
  function Ls(mods: string): nat
  {
    if mods == [] || mods[|mods| - 1] == 'z' then 0
    else Ls(mods[..|mods| - 1]) + if mods[|mods| - 1] == 'l' then 1 else 0
  }

  lemma {:induction false} FieldSnoc(f: Field, mods: string, c: char)
    requires AreModifiers(mods) && c in MODIFIERS
    ensures AreModifiers(mods + [c]) && FieldOf(f, mods + [c]) == Modifier(FieldOf(f, mods), c)
    decreases |mods|
  {
    hide Modifier;
    if mods == [] {
      assert mods + [c] == [c] && [c][1..] == [];
      assert FieldOf(Modifier(f, c), []) == Modifier(f, c);
    } else {
      assert (mods + [c])[1..] == mods[1..] + [c];
      FieldSnoc(Modifier(f, mods[0]), mods[1..], c);
    }
  }

  function SizeAfter(mods: string): Size
  {
    if Ls(mods) > 0 then if Ls(mods) % 2 == 0 then LLONGSZ else LONGSZ
    else if 'z' in mods then SIZETSZ else INTSZ
  }

  lemma LsSnoc(mods: string, c: char)
    ensures Ls(mods + [c]) == if c == 'z' then 0 else if c == 'l' then Ls(mods) + 1 else Ls(mods)
  {
    assert (mods + [c])[..|mods|] == mods;
  }

  lemma SizeStep(f: Field, mods: string, c: char)
    requires c in MODIFIERS && f.size == SizeAfter(mods)
    ensures Modifier(f, c).size == SizeAfter(mods + [c])
  {
    hide Ls;
    LsSnoc(mods, c);
    assert 'z' in mods + [c] <==> 'z' in mods || 'z' == c;
  }

  lemma {:induction false} SizeOf(mods: string)
    requires AreModifiers(mods)
    ensures FieldOf(PLAIN, mods).size == SizeAfter(mods)
    decreases |mods|
  {
    if mods != [] {
      hide Modifier, FieldOf, SizeAfter;
      var n := |mods| - 1;
      assert mods == mods[..n] + [mods[n]];
      SizeOf(mods[..n]);
      FieldSnoc(PLAIN, mods[..n], mods[n]);
      SizeStep(FieldOf(PLAIN, mods[..n]), mods[..n], mods[n]);
    }
  }

  /** A number is taken as 64 bits wide exactly under ll: under an even number of l's not undone by a z. */
  predicate Wide(mods: string) { Ls(mods) > 0 && Ls(mods) % 2 == 0 }

  lemma WideIsLong(mods: string)
    requires AreModifiers(mods)
    ensures FieldOf(PLAIN, mods).size.LLONGSZ? <==> Wide(mods)
  {
    SizeOf(mods);
  }

  // ------------------------------------------------------------------------ numbers

  /** A numeral as one is taught to write it: digits of the base only, no zero in front but for zero itself,
      standing for v. */
  ghost predicate IsNumeral(digits: string, base: nat, v: int)
  {
    && digits != [] && Value(digits, base) == v && (digits[0] == '0' ==> |digits| == 1)
    && (forall i :: 0 <= i < |digits| ==> digits[i] in DIGITS && DigitValue(digits[i]) < base)
  }

  lemma LastIsOfBase(n: nat, b: nat)
    requires 2 <= b <= 16
    ensures LastDigit(n, b) in DIGITS && DigitValue(LastDigit(n, b)) < b
  {
    DigitTable(n % b);
  }

  lemma {:induction false} DigitsOfBase(n: nat, b: nat)
    requires 2 <= b <= 16
    ensures forall i :: 0 <= i < |DigitString(n, b)| ==>
      DigitString(n, b)[i] in DIGITS && DigitValue(DigitString(n, b)[i]) < b
  {
    hide DigitString, LastDigit, DropDigit, DigitValue;
    LastIsOfBase(n, b);
    if n < b {
      OneDigit(n, b);
    } else {
      ManyDigits(n, b);
      DigitsOfBase(DropDigit(n, b), b);
    }
  }

  lemma DigitStringIsNumeral(n: nat, b: nat)
    requires 2 <= b <= 16
    ensures IsNumeral(DigitString(n, b), b, n)
  {
    hide DigitString, Value, DigitValue;
    DigitStringValue(n, b);
    NoLeadingZero(n, b);
    if n == 0 { OneDigit(0, b); }
    DigitsOfBase(n, b);
  }

  lemma DigitIsItsValue(c: char)
    requires c in DIGITS
    ensures DigitValue(c) < 16 && c == DIGITS[DigitValue(c)]
  {
    var i :| 0 <= i < |DIGITS| && DIGITS[i] == c;
    DigitTable(i);
  }

  lemma ValueLast(d: string, b: nat)
    requires d != []
    ensures Value(d, b) == Value(d[..|d| - 1], b) * b + DigitValue(d[|d| - 1])
  {
  }

  lemma Split(n: nat, b: nat, q: nat, c: char)
    requires 2 <= b <= 16 && c in DIGITS && DigitValue(c) < b && n == q * b + DigitValue(c)
    ensures DropDigit(n, b) == q && LastDigit(n, b) == c && (q == 0 <==> n < b)
  {
    Nonlinear.QuotRem(n, b, q, DigitValue(c));
    DigitIsItsValue(c);
    if q > 0 { Nonlinear.MulLe(1, q, b); }
  }

  /** There is only one way to write a number, so a text that holds its numeral is settled. */
  lemma {:induction false} NumeralIsUnique(d: string, b: nat, n: nat)
    requires 2 <= b <= 16 && IsNumeral(d, b, n)
    ensures d == DigitString(n, b)
    decreases |d|
  {
    hide DigitString, LastDigit, DropDigit, DigitValue, Value;
    var k := |d| - 1;
    var front, last := d[..k], d[k];
    ValueLast(d, b);
    Split(n, b, Value(front, b), last);
    if front == [] {
      NoValue(b);
      OneDigit(n, b);
    } else {
      NumeralIsUnique(front, b, Value(front, b));
      OneDigit(0, b);
      assert Value(front, b) > 0;
      ManyDigits(n, b);
    }
    assert d == front + [last];
  }

  /** Text of a number directive: sign, prefix and numeral placed in the field the modifiers describe. */
  ghost predicate PrintsNumber(out: string, mods: string, sign: string, prefix: string, base: nat, v: int)
    requires AreModifiers(mods)
  {
    exists digits :: IsNumeral(digits, base, v) && out == Stuff(FieldOf(PLAIN, mods), sign, prefix, digits)
  }

  lemma NumberDirective(mods: string, ch: char, args: nat -> Arg)
    requires AreModifiers(mods) && ch in "doupx"
    ensures ch !in MODIFIERS
    ensures
      var f := FieldOf(PLAIN, mods);
      var (num, neg) := GetNum(f.size, ch, args(0).i);
      && Base(ch) >= 2
      && PrintsNumber(Output(START, "%" + mods + [ch], args), mods, if neg then "-" else "",
                      BasePrefix(Base(ch), f.altformat || ch == 'p'), Base(ch), num)
  {
    hide Output, Stuff, DigitString, FieldOf, GetNum, IsNumeral, BasePrefix;
    OutputOfDirective(mods, ch, args);
    var (num, neg) := GetNum(FieldOf(PLAIN, mods).size, ch, args(0).i);
    DigitStringIsNumeral(num, Base(ch));
  }

  lemma Alternate(mods: string)
    requires AreModifiers(mods)
    ensures FieldOf(PLAIN, mods).altformat <==> '#' in mods
  {
    FlagsOf(PLAIN, mods);
  }

  /** The number an unsigned directive is given, as wide as its size says. */
  function Unsigned(mods: string, i: int): int { if Wide(mods) then i % W64 else i % W32 }

  lemma UnsignedNumber(mods: string, ch: char, i: int)
    requires AreModifiers(mods) && (ch == 'u' || ch == 'x' || ch == 'o')
    ensures GetNum(FieldOf(PLAIN, mods).size, ch, i) == (Unsigned(mods, i), false)
  {
    WideIsLong(mods);
    hide FieldOf, Ls;
  }

  /** %u: the argument in decimal, modulo 2^32, or 2^64 under ll; never a prefix. */
  lemma UnsignedDirective(mods: string, args: nat -> Arg)
    requires AreModifiers(mods)
    ensures PrintsNumber(Output(START, "%" + mods + "u", args), mods, "", "", 10, Unsigned(mods, args(0).i))
  {
    hide Output, FieldOf, GetNum, PrintsNumber, Unsigned;
    NumberDirective(mods, 'u', args);
    UnsignedNumber(mods, 'u', args(0).i);
    assert "%" + mods + ['u'] == "%" + mods + "u";
  }

  /** %x: in hexadecimal, with 0x in front exactly under '#'. */
  lemma HexDirective(mods: string, args: nat -> Arg)
    requires AreModifiers(mods)
    ensures PrintsNumber(Output(START, "%" + mods + "x", args), mods, "", if '#' in mods then "0x" else "", 16,
                         Unsigned(mods, args(0).i))
  {
    hide Output, FieldOf, GetNum, PrintsNumber, Unsigned;
    NumberDirective(mods, 'x', args);
    UnsignedNumber(mods, 'x', args(0).i);
    Alternate(mods);
    assert "%" + mods + ['x'] == "%" + mods + "x";
  }

  /** %o: in octal, with 0 in front exactly under '#'. */
  lemma OctalDirective(mods: string, args: nat -> Arg)
    requires AreModifiers(mods)
    ensures PrintsNumber(Output(START, "%" + mods + "o", args), mods, "", if '#' in mods then "0" else "", 8,
                         Unsigned(mods, args(0).i))
  {
    hide Output, FieldOf, GetNum, PrintsNumber, Unsigned;
    NumberDirective(mods, 'o', args);
    UnsignedNumber(mods, 'o', args(0).i);
    Alternate(mods);
    assert "%" + mods + ['o'] == "%" + mods + "o";
  }

  lemma PointerNumber(size: Size, i: int)
    ensures GetNum(size, 'p', i) == (i % W32, false)
  {
  }

  /** %p: a 32-bit word in hexadecimal, always with 0x in front, whatever the size modifiers. */
  lemma PointerDirective(mods: string, args: nat -> Arg)
    requires AreModifiers(mods)
    ensures PrintsNumber(Output(START, "%" + mods + "p", args), mods, "", "0x", 16, args(0).i % W32)
  {
    hide Output, FieldOf, GetNum, PrintsNumber;
    NumberDirective(mods, 'p', args);
    PointerNumber(FieldOf(PLAIN, mods).size, args(0).i);
    assert "%" + mods + ['p'] == "%" + mods + "p";
  }

  /** v is the argument as a signed number of the directive's width. */
  predicate SignedFrom(mods: string, i: int, v: int)
  {
    if Wide(mods) then v % W64 == i % W64 && -0x8000_0000_0000_0000 <= v < 0x8000_0000_0000_0000
    else v % W32 == i % W32 && -0x8000_0000 <= v < 0x8000_0000
  }

  lemma SignedNumber(mods: string, i: int) returns (v: int)
    requires AreModifiers(mods)
    ensures SignedFrom(mods, i, v)
    ensures GetNum(FieldOf(PLAIN, mods).size, 'd', i) == (if v < 0 then 0 - v else v, v < 0)
  {
    WideIsLong(mods);
    hide FieldOf, Ls;
    v := if Wide(mods) then Signed64(i) else Signed32(i);
  }

  /** %d: the argument as a signed number of 32 bits, or 64 under ll: a minus exactly if it is negative, and
      its magnitude in decimal, with no prefix. */
  lemma SignedDirective(mods: string, args: nat -> Arg) returns (v: int)
    requires AreModifiers(mods)
    ensures SignedFrom(mods, args(0).i, v)
    ensures PrintsNumber(Output(START, "%" + mods + "d", args), mods, if v < 0 then "-" else "", "", 10,
                         if v < 0 then 0 - v else v)
  {
    hide Output, FieldOf, GetNum, PrintsNumber, SignedFrom;
    NumberDirective(mods, 'd', args);
    v := SignedNumber(mods, args(0).i);
    assert "%" + mods + ['d'] == "%" + mods + "d";
  }
}
