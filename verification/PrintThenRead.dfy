/** What printf's %d writes, atoi reads back: over every int, every string of modifiers and every
    buffer it fits in. */
module PrintThenRead {

  import opened Words
  import opened Numerals
  import opened PrintfText
  import opened Atoi
  import Nonlinear
  import Printf

  function Minus(neg: bool): string { if neg then "-" else "" }

  lemma FillAt(c: char, n: nat)
    ensures |Fill(c, n)| == n && forall i :: 0 <= i < n ==> Fill(c, n)[i] == c
  {
  }

  /** Zeros that end up behind the number. */
  function TrailingZeros(f: Field, len: nat): nat { if f.rightspc && f.fillchar == '0' then Padding(f, len) else 0 }

  function Signed(neg: bool, v: int): int { if neg then 0 - v else v }

  /** A number with k zeros behind it. */
  function Scaled(v: int, k: nat): int { v * Pow(10, k) }

  /** The four layouts, and what each denotes. */
  lemma ZerosAfter(neg: bool, digits: string, pad: string)
    requires digits != [] && AllDigits(digits) && forall i :: 0 <= i < |pad| ==> pad[i] == '0'
    ensures Denotes(Minus(neg) + "" + digits + pad) == Signed(neg, Scaled(Value(digits, 10), |pad|))
  {
    hide Denotes, Value, Pow;
    ValueConcat(digits, pad, 10);
    ValueOfZeros(pad, 10);
    DenotesForm("", Minus(neg), digits + pad, "");
    assert "" + Minus(neg) + (digits + pad) + "" == Minus(neg) + "" + digits + pad;
  }

  lemma BlanksAfter(neg: bool, digits: string, pad: string)
    requires digits != [] && AllDigits(digits) && forall i :: 0 <= i < |pad| ==> pad[i] == ' '
    ensures Denotes(Minus(neg) + "" + digits + pad) == Signed(neg, Value(digits, 10))
  {
    hide Denotes, Value;
    DenotesForm("", Minus(neg), digits, pad);
    assert "" + Minus(neg) + digits + pad == Minus(neg) + "" + digits + pad;
  }

  lemma Empties(a: string, b: string, c: string)
    ensures "" + a + (b + c) + "" == a + "" + b + c
  {
  }

  lemma LeadingZeros(pad: string, digits: string)
    requires digits != [] && AllDigits(digits) && forall i :: 0 <= i < |pad| ==> pad[i] == '0'
    ensures AllDigits(pad + digits) && Value(pad + digits, 10) == Value(digits, 10)
  {
    ValueConcat(pad, digits, 10);
    ValueOfZeros(pad, 10);
    hide Value, Pow;
    var p := Pow(10, |digits|);
    assert 0 * p == 0;
  }

  lemma ZerosBefore(neg: bool, digits: string, pad: string)
    requires digits != [] && AllDigits(digits) && forall i :: 0 <= i < |pad| ==> pad[i] == '0'
    ensures Denotes(Minus(neg) + "" + pad + digits) == Signed(neg, Value(digits, 10))
  {
    hide Denotes, Value;
    LeadingZeros(pad, digits);
    DenotesForm("", Minus(neg), pad + digits, "");
    Empties(Minus(neg), pad, digits);
  }

  lemma BlanksBefore(neg: bool, digits: string, pad: string)
    requires digits != [] && AllDigits(digits) && forall i :: 0 <= i < |pad| ==> pad[i] == ' '
    ensures Denotes(pad + Minus(neg) + "" + digits) == Signed(neg, Value(digits, 10))
  {
    hide Denotes, Value;
    DenotesForm(pad, Minus(neg), digits, "");
    assert pad + Minus(neg) + digits + "" == pad + Minus(neg) + "" + digits;
  }

  /** Where the padding goes around sign and digits. */
  function Padded(rightspc: bool, fill: char, sign: string, digits: string, pad: string): string
  {
    if rightspc then sign + "" + digits + pad
    else if fill == '0' then sign + "" + pad + digits
    else pad + sign + "" + digits
  }

  lemma Layout(f: Field, sign: string, digits: string)
    ensures
      var pad := Fill(f.fillchar, Padding(f, |sign| + |digits|));
      Stuff(f, sign, "", digits) == Padded(f.rightspc, f.fillchar, sign, digits, pad)
  {
    assert |sign| + |""| + |digits| == |sign| + |digits|;
    hide Fill, Padding;
  }

  lemma NoPower(num: nat)
    ensures Scaled(num, 0) == num
  {
  }

  lemma Laid(rightspc: bool, fill: char, neg: bool, digits: string, pad: string)
    requires (fill == ' ' || fill == '0') && digits != [] && AllDigits(digits)
    requires forall i :: 0 <= i < |pad| ==> pad[i] == fill
    ensures Denotes(Padded(rightspc, fill, Minus(neg), digits, pad)) ==
      Signed(neg, if rightspc && fill == '0' then Scaled(Value(digits, 10), |pad|) else Value(digits, 10))
  {
    hide Denotes, Signed, Value, Scaled, Minus, AllDigits;
    if rightspc {
      if fill == '0' { ZerosAfter(neg, digits, pad); } else { BlanksAfter(neg, digits, pad); }
    } else {
      if fill == '0' { ZerosBefore(neg, digits, pad); } else { BlanksBefore(neg, digits, pad); }
    }
  }

  lemma DigitsDenote(f: Field, neg: bool, digits: string)
    requires (f.fillchar == ' ' || f.fillchar == '0') && digits != [] && AllDigits(digits)
    ensures Denotes(Stuff(f, Minus(neg), "", digits)) ==
      Signed(neg, Scaled(Value(digits, 10), TrailingZeros(f, |Minus(neg)| + |digits|)))
  {
    hide Denotes, Stuff, Signed, Scaled, Value, Minus, AllDigits, Padded, Padding, Fill;
    var n := Padding(f, |Minus(neg)| + |digits|);
    FillAt(f.fillchar, n);
    Layout(f, Minus(neg), digits);
    NoPower(Value(digits, 10));
    Laid(f.rightspc, f.fillchar, neg, digits, Fill(f.fillchar, n));
  }

  /** The text of a decimal number denotes that number, times ten for each zero padded on the right. */
  lemma PaddedDenotes(f: Field, neg: bool, num: nat)
    requires f.fillchar == ' ' || f.fillchar == '0'
    ensures
      var digits := DigitString(num, 10);
      Denotes(Stuff(f, Minus(neg), "", digits)) ==
      Signed(neg, Scaled(num, TrailingZeros(f, |Minus(neg)| + |digits|)))
  {
    hide *;
    DecimalDigits(num, 10);
    DigitStringValue(num, 10);
    DigitsDenote(f, neg, DigitString(num, 10));
  }

  /** An int passed to any of the signed sizes is read as itself. */
  lemma ReadsTheInt(size: Size, n: Int)
    ensures
      var (num, neg) := GetNum(size, 'd', n);
      neg == (n < 0) && num == (if n < 0 then 0 - n else n)
  {
  }

  lemma DecimalForm(f: Field, n: Int)
    ensures
      var num: nat := if n < 0 then 0 - n else n;
      NumText(f, 'd', n) == Stuff(f, Minus(n < 0), "", DigitString(num, 10))
  {
    ReadsTheInt(f.size, n);
    hide GetNum, DigitString, Stuff;
    assert BasePrefix(Base('d'), f.altformat) == "";
  }

  /** What %d prints for n in a field. */
  lemma DecimalText(f: Field, n: Int)
    requires f.fillchar == ' ' || f.fillchar == '0'
    ensures
      var len := |Minus(n < 0)| + |DigitString(if n < 0 then 0 - n else n, 10)|;
      Denotes(NumText(f, 'd', n)) == n * Pow(10, TrailingZeros(f, len))
  {
    hide Denotes, NumText, DigitString, Stuff, Pow, TrailingZeros;
    var num: nat := if n < 0 then 0 - n else n;
    DecimalForm(f, n);
    PaddedDenotes(f, n < 0, num);
    var p := Pow(10, TrailingZeros(f, |Minus(n < 0)| + |DigitString(num, 10)|));
    Nonlinear.Distribute(0, num, p);
  }

  // ---- when a power of ten can be the identity modulo 2^32 ----

  lemma OddTimesOdd(a: int, b: int)
    requires a % 2 == 1 && b % 2 == 1
    ensures (a * b) % 2 == 1
  {
    var x, y := a / 2, b / 2;
    assert a == 2 * x + 1 && b == 2 * y + 1;
    assert a * b == 2 * (x * b) + b by { Nonlinear.Distribute(2 * x, 1, b); Nonlinear.Assoc(2, x, b); }
  }

  lemma Doubled(h: int, p: nat)
    requires p > 0 && h % p == 0
    ensures (2 * h) % (2 * p) == 0
  {
    var q := h / p;
    assert h == q * p;
    assert 2 * h == q * (2 * p) + 0 by { Nonlinear.Assoc(2, q, p); }
    Nonlinear.QuotRem(2 * h, 2 * p, q, 0);
  }

  /** An odd factor takes no twos with it. */
  lemma {:induction false} OddCancels(n: int, m: int, c: int, k: nat)
    requires m % 2 == 1 && n * m == c * Pow2(k)
    ensures n % Pow2(k) == 0
    decreases k
  {
    if k > 0 {
      var p := Pow2(k - 1);
      assert n * m == 2 * (c * p) by { Nonlinear.Assoc(c, 2, p); }
      if n % 2 == 1 { OddTimesOdd(n, m); }
      var h := n / 2;
      assert n == 2 * h;
      assert 2 * (h * m) == 2 * (c * p) by { Nonlinear.Assoc(2, h, m); }
      OddCancels(h, m, c, k - 1);
      Doubled(h, p);
    }
  }

  lemma TenTimes(q: int, p: int)
    requires p == 10 * q
    ensures p % 2 == 0
  {
  }

  lemma {:induction false} TensAreEven(k: nat)
    requires k > 0
    ensures Pow(10, k) % 2 == 0
  {
    TenTimes(Pow(10, k - 1), Pow(10, k));
  }

  /** A factor that leaves a number as it was modulo 2^32 leaves a multiple of 2^32 between them. */
  lemma SameWord(n: Int, p: int)
    requires ToInt(Wrap32(n * p)) == n
    ensures exists c :: n * (p - 1) == c * W32
  {
    var x := n * p;
    IntsAreExact(n);
    assert x % W32 == n % W32;
    var c := x / W32 - n / W32;
    assert x == x / W32 * W32 + x % W32 && n == n / W32 * W32 + n % W32;
    Nonlinear.Distribute(x / W32, n / W32, W32);
    Nonlinear.Distribute(p, 1, n);
    assert n * (p - 1) == c * W32;
  }

  lemma Pow2Is32()
    ensures Pow2(32) == W32
  {
    Pow2Of16();
    Pow2Split(16, 16);
  }

  lemma EvenFactor(n: Int, p: int)
    requires p % 2 == 0 && ToInt(Wrap32(n * p)) == n
    ensures n == 0
  {
    hide Wrap32, ToInt;
    SameWord(n, p);
    var c :| n * (p - 1) == c * W32;
    Pow2Is32();
    OddCancels(n, p - 1, c, 32);
  }

  /** Zeros put behind a number change what atoi makes of it, unless the number is zero. */
  lemma OnlyZeroSurvives(n: Int, k: nat)
    ensures ToInt(Wrap32(n * Pow(10, k))) == n <==> k == 0 || n == 0
  {
    hide Wrap32, ToInt;
    var p: int := Pow(10, k);
    if k == 0 {
      assert n * p == n;
    } else {
      TensAreEven(k);
      assert n == 0 ==> n * p == n;
      if ToInt(Wrap32(n * p)) == n { EvenFactor(n, p); }
    }
    IntsAreExact(n);
  }

  // ---- the whole path ----

  /** The zeros this directive pads behind the number. */
  function ZerosBehind(mods: string, n: Int): nat
    requires AreModifiers(mods)
  {
    TrailingZeros(FieldOf(PLAIN, mods), |Minus(n < 0)| + |DigitString(if n < 0 then 0 - n else n, 10)|)
  }

  lemma DecimalConversion(f: Field, a: Arg)
    ensures 'd' !in MODIFIERS && Conversion(f, 'd', a) == NumText(f, 'd', a.i)
  {
    assert INTEGERS[0] == 'd';
  }

  /** For every int and every string of modifiers: printing with %d and reading the text with atoi gives
      the int back exactly when the directive does not pad with zeros on the right, or the int is 0. */
  lemma PrintedIntReadsBack(mods: string, n: Int, args: nat -> Arg)
    requires AreModifiers(mods) && args(0).i == n
    ensures ToInt(Wrap32(Denotes(Output(START, "%" + mods + "d", args)))) == n <==> ZerosBehind(mods, n) == 0 || n == 0
  {
    hide Output, Denotes, NumText, FieldOf, Wrap32, Conversion, Pow, DigitString, TrailingZeros;
    var f := FieldOf(PLAIN, mods);
    OutputOfDirective(mods, 'd', args);
    DecimalConversion(f, args(0));
    FillIsBlankOrZero(PLAIN, mods);
    DecimalText(f, n);
    OnlyZeroSurvives(n, ZerosBehind(mods, n));
  }

  lemma SevenField()
    ensures AreModifiers("-05") && FieldOf(PLAIN, "-05") == Field(INTSZ, 5, true, '0', false)
  {
    var mods := "-05";
    assert mods[1..] == "05" && mods[1..][1..] == "5" && mods[1..][1..][1..] == "";
  }

  lemma SevenText()
    ensures NumText(Field(INTSZ, 5, true, '0', false), 'd', 7) == "70000"
  {
    var f := Field(INTSZ, 5, true, '0', false);
    assert GetNum(INTSZ, 'd', 7) == (7, false) && DigitString(7, 10) == "7";
    hide GetNum;
    assert Fill('0', 4) == "0000";
    assert NumText(f, 'd', 7) == "" + "" + "7" + Fill('0', 4);
  }

  lemma SevenWithZeros(s: string)
    requires s == "70000"
    ensures DigitRun(s) == 5 && Value(s, 10) == 70000
  {
    assert "7" + "0000" == s && s + [] == s;
    ValueConcat("7", "0000", 10);
    ValueOfZeros("0000", 10);
    assert Pow(10, 4) == 10000 by { assert Pow(10, 2) == 100; }
    assert Value("7", 10) == 7;
    assert AllDigits(s);
    DigitRunOf(s, []);
  }

  /** 7 printed with %-05d is 70000. */
  lemma ZerosBehindSeven(args: nat -> Arg)
    requires args(0).i == 7
    ensures Output(START, "%-05d", args) == "70000" && ToInt(Wrap32(Denotes("70000"))) == 70000
  {
    var s := "70000";
    SevenWithZeros(s);
    assert SkipBlanks(s) == s && s[..5] == s;
    assert Denotes(s) == 70000;
    hide Denotes, NumText, FieldOf, Output, Conversion;
    assert "%" + "-05" + "d" == "%-05d";
    SevenField();
    SevenText();
    DecimalConversion(FieldOf(PLAIN, "-05"), args(0));
    OutputOfDirective("-05", 'd', args);
  }

  /** Without a minus flag, or without a leading zero, no width pads zeros on the right. */
  lemma NoZerosBehind(mods: string, n: Int)
    requires AreModifiers(mods) && ('-' !in mods || '0' !in mods)
    ensures ZerosBehind(mods, n) == 0
  {
    FlagsOf(PLAIN, mods);
  }

  lemma {:induction false} BlanksBeforeNul(t: string, z: string)
    requires z != [] && z[0] == '\0'
    ensures SkipBlanks(t + z) == SkipBlanks(t) + z
  {
    if t == [] {
      assert t + z == z;
      assert '\0' as int != ' ' as int && '\0' as int != '\t' as int;
      assert !Blank(z[0]);
      assert SkipBlanks(z) == z;
      assert SkipBlanks(t) + z == z;
    } else if Blank(t[0]) {
      assert (t + z)[1..] == t[1..] + z;
      BlanksBeforeNul(t[1..], z);
    }
  }

  lemma {:induction false} DigitsBeforeNul(t: string, z: string)
    requires z != [] && z[0] == '\0'
    ensures DigitRun(t + z) == DigitRun(t)
  {
    if t == [] {
      assert t + z == z;
    } else if IsDigit(t[0]) {
      assert (t + z)[1..] == t[1..] + z;
      DigitsBeforeNul(t[1..], z);
    }
  }

  /** What lies beyond the terminator does not matter to atoi. */
  lemma StopsAtNul(t: string, z: string)
    requires z != [] && z[0] == '\0'
    ensures Denotes(t + z) == Denotes(t)
  {
    BlanksBeforeNul(t, z);
    var b := SkipBlanks(t);
    var signed := b != [] && (b[0] == '-' || b[0] == '+');
    var u := if signed then b[1..] else b;
    assert (if signed then (b + z)[1..] else b + z) == u + z;
    DigitsBeforeNul(u, z);
    DigitRunBound(u);
    assert (u + z)[..DigitRun(u)] == u[..DigitRun(u)];
    hide SkipBlanks, DigitRun, Value;
    assert b == [] ==> (b + z)[0] == '\0';
  }

  /** The same through vsnprintf: a buffer the text fits in is read back from start to terminator. */
  lemma StoredIntReadsBack(mods: string, n: Int, args: nat -> Arg, buf: seq<char>, junk: seq<char>)
    requires AreModifiers(mods) && args(0).i == n
    requires buf == Output(START, "%" + mods + "d", args) + ['\0'] + junk
    ensures ToInt(Wrap32(Denotes(buf))) == n <==> ZerosBehind(mods, n) == 0 || n == 0
  {
    var text := Output(START, "%" + mods + "d", args);
    assert buf == text + (['\0'] + junk);
    hide Output, Denotes;
    StopsAtNul(text, ['\0'] + junk);
    PrintedIntReadsBack(mods, n, args);
  }

  lemma NoNul(mods: string)
    requires AreModifiers(mods)
    ensures '\0' !in "%" + mods + "d"
  {
    assert '\0' !in MODIFIERS;
  }

  /** printf into a buffer and atoi out of it.  If the text fits, the int comes back exactly when no zeros are
      padded behind it or it is 0; if not, what comes back is what the part that fits denotes. */
  method PrintAndRead(mods: string, n: Int, args: nat -> Arg, buf: array<char>) returns (chars: nat, r: Int)
    requires AreModifiers(mods) && args(0).i == n && buf.Length > 0
    modifies buf
    ensures chars == |Output(START, "%" + mods + "d", args)|
    ensures chars < buf.Length ==> (r == n <==> ZerosBehind(mods, n) == 0 || n == 0)
    ensures chars >= buf.Length ==> r == ToInt(Wrap32(Denotes(Output(START, "%" + mods + "d", args)[..buf.Length - 1])))
  {
    hide Output, Denotes, ZerosBehind, ToInt, Wrap32;
    var fmt := "%" + mods + "d";
    NoNul(mods);
    ghost var text, junk := Output(START, fmt, args), buf[..];
    chars := Printf.Vsnprintf(buf, buf.Length, fmt, args);
    ghost var k := if chars < buf.Length then chars else buf.Length - 1;
    r := Atoi.Atoi(buf[..]);
    if chars < buf.Length {
      assert text[..k] == text;
      StoredIntReadsBack(mods, n, args, buf[..], junk[k + 1..]);
    } else {
      assert buf[..] == text[..k] + (['\0'] + junk[k + 1..]);
      StopsAtNul(text[..k], ['\0'] + junk[k + 1..]);
    }
  }
}
